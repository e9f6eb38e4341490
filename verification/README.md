# moonflared: a verified model

moonflared is a single-threaded daemon that watches an energy site.  This
project models the parts of it that hold real state, as Dafny specifications
and as objects that change that state the way the program does, and proves
what the program promises about them.

`dafny verify dfyconfig.toml` checks everything.  Proofs by induction are written
out, so lemmas carry `{:induction false}`; `hide` keeps each proof to the
definitions it needs.

## What is modelled

Each component has its functions on values (the specification), theorems about
them, and, where the program updates state in place, a class or methods with
loops proved to compute exactly those functions.

- **The Magnum RS-485 framer** (`MagFrame*.dfy`) recovers packets from bytes
  alone.  `MagFrame` is the framer on values, `MagFrameReference` an independent
  machine that looks at the input one byte at a time and whose unknown runs are
  merged.  Refinement to it gives chunk independence; a weave of slices and gaps
  gives the stream partition; a grammar in bytes of what a bus sends
  (`MagFrameWire`) gives the round trip, and `MagFrameKinds` that nothing else
  comes out as a packet.
  `MagFrameIdentity` and `MagFrameCycles` say whose packets come out and in which
  cycle, `MagFrameIdle` what settling an idle bus does to all that, and
  `MagFrameLimits` what a relearn does.
- **The protothread scheduler** (`ProtoThread*.dfy`): intrusive circular lists,
  a hashed table of wait lists refined to one FIFO of waiters, kill and join, and
  the tick of the main loop.
- **Device slots** (`Devices*.dfy`): `Devices` is the table of slots and pending
  reopens, with the operations on it.  `DevicesPatch` and `DevicesConverge` follow
  a reconfiguration through both passes, the exits and the reopens;
  `DevicesMissed` and `DevicesQueue` follow what keeps it from the config;
  `DevicesExact` puts both together, and `DevicesAgain` applies the result again.
  `DevicesSafety`, `DevicesNames`, `DevicesAway` and `DevicesStart` are about every
  run of operations, and `DevicesAnswers` about what a caller is told.
- **The JK frame assembler** (`Jk*.dfy`): conservation of bytes, reading back
  what was sent, and the command frames.
- **The history store** (`History*.dfy`): the drop-oldest ring, pruning, the
  watermark cache against the file, and the modules' settings.
- **Message text** (`Message*.dfy`, `Utf8.dfy`), **phantom averages**
  (`Json.dfy`, `Average*.dfy`), **secret fields** (`Secret.dfy`) and **site
  totals** (`System*.dfy`).

## What the proofs found

Where a promise does not hold in general, the project proves exactly when it does.

- `src/magnum/mag_frame.h:35-38` says a stalled reader changes nothing.  It can:
  when the relearn check counts a long chunk first, a packet read in one piece
  with noise is lost that is delivered when the two are read apart
  (`RelearnDependsOnTheCut`, from a state the framer reaches,
  `KnownAndIdleIsReached`).  Without a relearn the promise holds for any two
  cuttings (`ChunkIndependence`), and for these two it holds if and only if none
  fires (`CutsAgreeExactlyWhen`).
- `src/magnum/mag_frame.h:69` says packets come in stream order.  An idle tail can
  overtake held packets (`IdleOvertakes` says exactly when), and confirmation then
  still succeeds although bytes were passed over in between
  (`OvertakenThenConfirmed`).
- `src/magnum/mag_frame.h:24-29` says an inverter's packets are held until a second
  one confirms it.  When a candidate is given up after a quiet second in
  mid-cycle, with nothing in the buffer, the state is left where it was, and the
  next bytes come out as a packet of its cycle though no inverter is known
  (`GivenUpGetsOut`).  An inverter confirmed earlier does not help: after a relearn
  it happens to another model's packet (`OtherGetsOut`, from a state the framer
  reaches, `OtherGetsOutIsReached`).  That is exactly when it happens: for one idle
  call (`OpensCycleExactlyWhen`, `IdleIsSafeExactlyWhen`), for what may be fed after
  it (`UnconfirmedGetsOutExactlyWhen`) and over whole runs
  (`MagFrameIdle.RunIsSafeExactlyWhen`).  In every run, inverter packets are only
  those of a confirmed inverter (`EveryRunIsSound`).
- A config entry holds a kind, driver and uuid of 31, 31 and 39 characters, a slot
  15, 15 and 36.  An entry that does not fit is never settled: every apply stops
  it and opens it again (`ConvergesExactlyWhen`, `MisfitIsStopped`).
- Two devices get one uuid exactly when one is added whose uuid is in use once it
  is cut to a slot's 36 characters: for one add (`AddIsDistinctExactlyWhen`) and
  over whole runs (`DevicesSafety.RunIsSafeExactlyWhen`); two long uuids can do it
  (`LongUuidsCollide`).
- `src/device/device.c:3` says names are unique among all slots in use, dying ones
  included.  Every operation keeps that but one: an apply that gives a name away
  before its holder has stopped (`DoNamesExactlyWhen`, `RunNamesExactlyWhen`,
  `NameSharedWhileStopping`).
- A reconfiguration reaches its config if and only if every enabled entry fits,
  none is missed and everything queued is taken up (`ConvergesExactlyWhen`).  A
  device that is already stopping when an apply finds its entry unchanged is
  patched, not queued, and is gone when it stops.  What an earlier config queued
  can come up although the config has changed since: a change taken back before
  the device has stopped comes through all the same (`RevertedTooSoon`), and so
  does a device dropped from the config while it waits for a name
  (`DroppedTooSoon`).
- A full JK buffer is never drained while calls bring bytes (`StuckForever`).
  Calls of some width never overflow it, whatever they bring, if and only if they
  are kept to 213 bytes (`NeverLosesExactlyWhen`).
- A JK command declares the length it was asked for even when only 13 bytes fit
  (`CommandReadsBack`).
- The watermark cache can trail the file until the minute's re-read
  (`CacheFallsBehind`), but never shows a value outside its window after a
  counting sample (`CacheIsSound`).
- `src/rest/secret.h:8-10` says clients never read a secret back.  One that begins
  with eight asterisks is taken for a mask and shown, up to 31 characters of it
  (`ReadBackExactlyWhen`); of the others `MaskHides` says how much is seen.
- With room for fewer than five bytes a message may be cut inside a character
  (`TextIsValid` says exactly when).

## Model

| member | source | states |
|---|---|---|
| `MagFrameRefinement.ChunkIndependence` | src/magnum/mag_frame.c:368-393 | From any two cuttings of the same bytes the framer ends with the same reference state: same typed packets in order, unknown runs merged, same buffer, state, held packets, identity and counters, when the relearn fires under neither |
| `MagFrameRefinement.ProcessRefines` | src/magnum/mag_frame.c:326-344 | Parsing as the source does it ends where the byte-at-a-time reference machine ends, with no packet left to parse |
| `MagFrameReference.RunExtends` | src/magnum/mag_frame.c:326-344 | The reference machine may stop early and go on when more bytes arrive, with the same result: the law chunk independence rests on |
| `MagFrameReference.MergeMeaning` | src/magnum/mag_frame.c:129-195 | What merging adjacent unknown runs keeps of a log: its typed packets, in order, and its unknown bytes |
| `MagFrameRefinement.FeedAllRefines` | src/magnum/mag_frame.c:368-393 | A run of feeds is one run of the reference machine over all the bytes |
| `MagFrameRefinement.HeldNeverOverflows` | src/magnum/mag_frame.c:161-180 | A packet put on hold always fits: the overflow branch is never taken |
| `MagFrameRefinement.StepKeepsProbation` | src/magnum/mag_frame.c:197-344 | Every step keeps the probation invariant: probing exactly while packets are held, synced while probing, at most 3 held |
| `MagFrameMoves.StepIsAMove` | src/magnum/mag_frame.c:197-313 | Each parsing step is one of a few legal moves, so what every move keeps every step keeps |
| `MagFrameMoves.MoveTells` | src/magnum/mag_frame.c:182-313 | A packet is counted bad exactly when what follows an inverter packet is neither a remote's nor an inverter's or a reply is begun and is none; a resync exactly when bytes are skipped in step |
| `MagFrameMoves.IdleTells` | src/magnum/mag_frame.c:395-409 | Idle counts a bad packet exactly when it settles a tail in mid-cycle, and is no resync |
| `MagFrameWire.InverterExactlyWhen` | src/magnum/mag_frame.c:90-115 | 21 bytes are an inverter packet exactly when the last is zero, frequency, temperatures and volts are in range, and bytes 14 and 10 are the known inverter's model and revision, or else the model and stack mode are among the known ones |
| `MagFrameWire.TurnaroundExactlyWhen` | src/magnum/mag_frame.c:250-253 | A stray byte is one of five |
| `MagFrameWire.RemoteExactlyWhen` | src/magnum/mag_frame.c:78-88 | A remote packet's last byte is one of thirteen |
| `MagFrameWire.ReplyExactlyWhen` | src/magnum/mag_frame.c:45-76 | A reply is taken exactly when it has its own length and kind behind its first byte, with an AGS status up to 27 and a charge up to 100 |
| `MagFrameKinds.MoveShaped` | src/magnum/mag_frame.c:197-344 | Each parsing step keeps it that what is out and on hold is, byte by byte, a packet of the kind it is given as, and that a known inverter is of a known model |
| `MagFrameKinds.IdleShaped` | src/magnum/mag_frame.c:395-409 | So does settling an idle tail |
| `MagFrameStream.EveryRunIsFaithful` | src/magnum/mag_frame.c:129-393 | Over every run of feeds, relearns included: what was delivered, what is held and the buffer are disjoint slices of the input in order; every gap is turnaround bytes behind an inverter packet; the counters are the sums over the log; every packet is of its kind byte by byte; every inverter packet is of a model and revision with a confirming pair; and every other packet hangs on the delivered inverter packet of its cycle |
| `MagFrameIdentity.MoveVouches` | src/magnum/mag_frame.c:215-243 | Each parsing step keeps it so that every inverter packet delivered, and the inverter known, has a pair of packets of its model and revision in step, also after a relearn |
| `MagFrameIdentity.TookVouches` | src/magnum/mag_frame.c:215-243 | Taking a packet delivers it only if its inverter is the known one, or is confirmed by this packet |
| `MagFrameCycles.MoveCycles` | src/magnum/mag_frame.c:197-344 | Each parsing step keeps it that a remote packet comes right behind an inverter packet and a reply right behind both, and that so does what is due next |
| `MagFrameCycles.OpensCycleExactlyWhen` | src/magnum/mag_frame.c:395-404 | Idle leaves the framer waiting behind a packet that was neither delivered as an inverter's nor is on probation exactly when it gives the candidate up there with nothing in the buffer, whatever was confirmed before |
| `MagFrameCycles.IdleCyclesExactlyWhen` | src/magnum/mag_frame.c:395-409 | Idle always keeps each packet behind its cycle's inverter packet, given up or not; it keeps that packet a delivered inverter packet if and only if it does not do that |
| `MagFrameStream.ProcessAccounts` | src/magnum/mag_frame.c:255-344 | Parsing keeps the account of the input: it only cuts the buffer into slices and drops stray bytes |
| `MagFrameStream.ConfirmedStays` | src/magnum/mag_frame.c:215-243 | A confirmed log stays confirmed whatever is delivered after |
| `MagFrameStream.ConfirmingPair` | src/magnum/mag_frame.c:138-146 | The packet that confirms comes right behind the held ones, which start with a packet of the same model and revision |
| `MagFrameStream.NothingTypedUnconfirmed` | src/magnum/mag_frame.c:215-243 | Until an inverter is known, a run of feeds has delivered no typed packet |
| `MagFrameStream.FeedSafe` | src/magnum/mag_frame.c:368-393 | A feed keeps it that no packet is out or due that hangs on no delivered or held inverter packet, whether or not it sets off the relearn |
| `MagFrameStream.TypedIsConfirmed` | src/magnum/mag_frame.c:215-313 | Where every packet out hangs on a delivered inverter packet, every typed packet delivered is at most two places behind an inverter packet, with only packets of its cycle between, and a pair of that inverter's packets in step is in the log |
| `MagFrameRoundTrip.StreamReadBack` | src/magnum/mag_frame.c:197-393 | Junk followed by a stream in protocol, spelled in bytes with all other bytes free, cut in any way, is read back: exactly its packets, in order, once two packets of the inverter's model and revision were seen |
| `MagFrameRoundTrip.CaptureReadBack` | src/magnum/mag_frame.c:368-393 | The same for a whole capture fed at once, with no condition on the relearn |
| `MagFrameLimits.RelearnDependsOnTheCut` | src/magnum/mag_frame.c:379-381 | The header's promise fails when a relearn fires: a packet is delivered or lost depending on how the bytes were cut |
| `MagFrameLimits.CutsAgreeExactlyWhen` | src/magnum/mag_frame.c:379-381 | A packet of the known inverter with noise behind it, read in one piece or two, gives the same log if and only if the whole does not set off the relearn |
| `MagFrameLimits.KnownAndIdleIsReached` | src/magnum/mag_frame.c:197-393 | Two cycles of a bus take a new framer to such a state |
| `MagFrameIdle.IdleKeepsOrder` | src/magnum/mag_frame.c:395-409 | Settling an idle tail keeps stream order unless it overtakes held packets |
| `MagFrameIdle.IdleOvertakes` | src/magnum/mag_frame.c:395-409 | Exactly when it does overtake them: probing, with bytes waiting, quiet between 60 ms and one second |
| `MagFrameIdle.OvertakenThenConfirmed` | src/magnum/mag_frame.c:395-409 | After that, earlier packets come out after the later bytes |
| `MagFrameIdle.IdleIsSafeExactlyWhen` | src/magnum/mag_frame.c:395-409 | An idle call keeps it that only packets of a confirmed inverter's cycle are out or due, if and only if it does not give a candidate up in mid-cycle; what was confirmed earlier does not matter |
| `MagFrameIdle.UnconfirmedGetsOutExactlyWhen` | src/magnum/mag_frame.c:255-288 | There are bytes that then come out as a packet whose cycle has no inverter packet in the log, if and only if it did that |
| `MagFrameIdle.GivenUpGetsOut` | src/magnum/mag_frame.c:255-404 | After giving up in mid-cycle the remote packet or reply that is due next comes out with its type, whatever the log holds, though no inverter is known and none on probation |
| `MagFrameIdle.OtherGetsOut` | src/magnum/mag_frame.c:379-404 | A known and confirmed inverter falls silent, the feed that brings another model's packet sets off the relearn, one quiet second passes: the next remote packet comes out although that model was never confirmed |
| `MagFrameIdle.OtherGetsOutIsReached` | src/magnum/mag_frame.c:197-409 | Two cycles of a bus take a new framer to where that happens |
| `MagFrameIdle.EveryRunIsSound` | src/magnum/mag_frame.c:197-409 | Over every run of feeds and idle calls: the probation bounds, the counters, every packet of its kind byte by byte, only confirmed inverters' inverter packets, and every other packet right behind its cycle's inverter packet, which was delivered or given up |
| `MagFrameIdle.RunIsSafeExactlyWhen` | src/magnum/mag_frame.c:197-409 | At every point of a run only packets of a confirmed inverter's cycle are out or due, if and only if no idle call of it gives a candidate up in mid-cycle |
| `MagFrameIdle.QuietRunIsOrdered` | src/magnum/mag_frame.c:129-409 | A run of feeds and idle calls that never overtakes held packets keeps stream order, the account of every input byte and the counters, safe or not |
| `MagFrameIdle.QuietRunIsFaithful` | src/magnum/mag_frame.c:129-409 | A run that does neither has all that runs of feeds have |
| `MagFrameObject.Framer.constructor` | src/magnum/mag_frame.c:346-351 | A new framer is the initial state |
| `MagFrameObject.Framer.Deliver` | src/magnum/mag_frame.c:129-135 | Counts a typed packet and passes it on |
| `MagFrameObject.Framer.HeldFlush` | src/magnum/mag_frame.c:138-145 | Hands the held packets on in order with their types |
| `MagFrameObject.Framer.HeldDrop` | src/magnum/mag_frame.c:148-159 | Gives up the candidate: what was held goes out as unknown bytes |
| `MagFrameObject.Framer.Emit` | src/magnum/mag_frame.c:161-180 | Holds a packet while probing, else delivers it |
| `MagFrameObject.Framer.Skip` | src/magnum/mag_frame.c:182-195 | Skipped bytes end probation, are counted, and count one resync if in step |
| `MagFrameObject.Framer.Hunt` | src/magnum/mag_frame.c:197-244 | The first candidate is found by the scan; bytes before it, or all but the last 20, are skipped |
| `MagFrameObject.Framer.Judge` | src/magnum/mag_frame.c:215-238 | A candidate confirms the one on probation only if in step and identical, else replaces it |
| `MagFrameObject.Framer.AfterInv` | src/magnum/mag_frame.c:255-288 | Stray byte, remote packet, next inverter packet or none, in the source's order |
| `MagFrameObject.Framer.AfterRemote` | src/magnum/mag_frame.c:290-313 | A reply of the length its first byte asks for, if valid |
| `MagFrameObject.Framer.Consume` | src/magnum/mag_frame.c:315-324 | Removes bytes from the front of the buffer |
| `MagFrameObject.Framer.Process` | src/magnum/mag_frame.c:326-344 | The parsing loop ends and computes Process() |
| `MagFrameObject.Framer.Feed` | src/magnum/mag_frame.c:368-393 | Feeding computes Feed(), which leaves at most 21 bytes, so the copy loop always has room |
| `MagFrameObject.Framer.Idle` | src/magnum/mag_frame.c:395-409 | Computes Idle() from the seconds of quiet |
| `MagFrameObject.FeedEach` | src/magnum/mag_frame.c:368-393 | The object, fed chunk by chunk, is the run the theorems are about |
| `ProtoThreadLists.List.Link` | protothread.h:265-279 | Puts a thread last in a circular list |
| `ProtoThreadLists.List.Unlink` | protothread.h:281-299 | Takes out the thread behind prev, the others keeping their order |
| `ProtoThreadLists.List.UnlinkOldest` | protothread.h:301-308 | Takes out the oldest thread |
| `ProtoThreadLists.List.FindAndUnlink` | protothread.h:310-330 | Takes out a named thread if it is there, and says whether it was |
| `ProtoThreadLists.List.Once` | protothread.h:265-330 | No thread is in a list twice |
| `ProtoThreadQueue.BroadcastTakesAll` | protothread.h:672-707 | A broadcast takes every waiter on the channel, leaves no such waiter and loses none |
| `ProtoThreadQueue.BroadcastInOrder` | protothread.h:672-707 | ... and both in the order they waited |
| `ProtoThreadQueue.SignalTakesOldest` | protothread.h:672-707 | A signal takes the oldest waiter on the channel and nothing else |
| `ProtoThreadQueue.LeftAndWoken` | protothread.h:672-707 | Every waiter is woken or stays, never both |
| `ProtoThreadQueue.BucketWakes` | protothread.h:417-434 | The bucket a channel hashes to sees all of the wakeup, for any hash |
| `ProtoThreadQueue.OtherBuckets` | protothread.h:417-434 | The other buckets see none of it |
| `ProtoThreadQueue.ProgressTakes` | protothread.h:681-698 | Waking one thread of the traversal keeps what was woken and what is left in account |
| `ProtoThreadQueue.ProgressRestarts` | protothread.h:681-698 | When the newest waiter was taken the traversal starts over, and nothing is woken twice or missed |
| `ProtoThread.Scheduler.Placement` | protothread.h:265-330 | In every reachable state a thread runs, is ready once, is once in the wait list of its own channel, or is in no list |
| `ProtoThread.Scheduler.constructor` | protothread.h:555-566 | A new scheduler holds no thread |
| `ProtoThread.Scheduler.Create` | protothread.h:366-390 | A new thread is ready behind the others |
| `ProtoThread.Scheduler.MoveMatching` | protothread.h:672-707 | The traversal of one wait list, which ends although taking the newest waiter restarts it, moves exactly the matching waiters to ready |
| `ProtoThread.Scheduler.Wake` | protothread.h:672-707 | Waking through the hashed table is waking in one FIFO of waiters |
| `ProtoThread.Scheduler.Resume` | protothread.h:611-625 | The oldest ready thread runs |
| `ProtoThread.Scheduler.FinishYielding` | protothread.h:399-412 | A yielding thread is ready again, last |
| `ProtoThread.Scheduler.FinishWaiting` | protothread.h:437-452 | A waiting thread is the last waiter of its channel; no one waits for a dead thread afterwards exactly if the channel is no dead thread's address |
| `ProtoThread.Scheduler.FinishDone` | protothread.h:627-650 | An exited thread is in no list and every thread joining it is ready |
| `ProtoThread.Scheduler.Join` | protothread.h:533-541 | A join blocks exactly while the other thread is alive |
| `ProtoThread.Scheduler.JoinersGone` | protothread.h:627-645 | No join waiter is left asleep on an exited or killed thread |
| `ProtoThread.Scheduler.Kill` | protothread.h:725-746 | A killed thread leaves its list, its joiners are ready, and every other thread keeps its place |
| `ProtoThreadTick.RunsByGeneration` | src/moonflared.c:412-414 | The order of a tick: the parked threads in parking order, then those they created, by generation |
| `ProtoThreadTick.EachRunsOnce` | src/moonflared.c:412-414 | Every parked and every created thread runs exactly once |
| `ProtoThreadTick.Tick` | src/moonflared.c:412-414 | One broadcast and running until nothing is ready ends, runs each thread once in that order, and parks those that wait again in the order they ran |
| `ProtoThreadTick.Broadcast` | protothread.h:715-719 | All threads parked on the tick become ready, in parking order |
| `DevicesExact.ConvergesExactlyWhen` | src/device/device.c:1061-1181 | After an accepted apply, the stopped devices exiting and one apply_pending, the live set is exactly the enabled entries with nothing under way, if and only if every enabled entry fits its slot, none is missed, and everything queued at the start is taken up; an unwanted queued entry that cannot be opened is the one case where only one direction is stated |
| `DevicesExact.ReconfigureSettles` | src/device/device.c:1061-1181 | With the queue taken up: nothing pends or dies, only enabled entries are live, and of them exactly those not missed: neither stopping unchanged and unqueued, nor to be opened and failing |
| `DevicesExact.NothingToComeExactlyWhen` | src/device/device.c:1145-1152 | The config is reached by apply alone exactly when apply answers that nothing is to come, the entries fit and none is missed |
| `DevicesExact.NotTakenUp` | src/device/device.c:1088-1126 | A queued entry the config does not take up, unless it is unwanted and cannot be opened, keeps it from being reached: it stays queued behind a running device, comes back outdated, or comes up unwanted |
| `DevicesPatch.PatchPending` | src/device/device.c:1069-1097 | After the first pass exactly these are queued: the devices that change identity, and what was queued whose device, if any, goes on |
| `DevicesTables.QueueEffect` | src/device/device.c:856-874 | Queueing with room puts the entry in the place of its uuid's, or in a free one, and leaves the others |
| `DevicesTables.CancelEffect` | src/device/device.c:844-854 | Cancelling takes out what was queued under the uuid, and nothing else |
| `DevicesConverge.AddAllMidway` | src/device/device.c:1115-1143 | After each entry of the second pass, every entry so far is running, queued or missed, and what is queued is an entry or waits for its turn |
| `DevicesConverge.ExitRests` | src/device/device.c:268-303 | When the stopped protothreads have returned nothing is dying and nothing else changed |
| `DevicesConverge.ReopenAllRests` | src/device/device.c:1155-1181 | One apply_pending empties the queue: each entry finds uuid, name and a slot free, and is opened or missed |
| `DevicesMissed.MissedIsDead` | src/device/device.c:1069-1097 | After the first pass a missed entry is not running, and is in use without being queued or cannot be opened |
| `DevicesMissed.DeadStays` | src/device/device.c:1115-1181 | Such an entry is not running after the second pass, nor after the exits and the reopens |
| `DevicesQueue.StuckStays` | src/device/device.c:1155-1181 | An entry queued behind the running device of its uuid is never opened and never leaves the queue |
| `DevicesQueue.StrayStays` | src/device/device.c:1155-1181 | An entry queued by an earlier config, unwanted and in no slot, comes up or stays queued |
| `DevicesAgain.ApplyIsIdleExactlyWhen` | src/device/device.c:1061-1153 | The config is reached exactly when nothing is under way, nothing is missed and apply gives back its own table |
| `DevicesAgain.ApplyTwice` | src/device/device.c:1061-1153 | Applying the reached config again stops and adds nothing |
| `DevicesAgain.MisfitIsStopped` | src/device/device.c:1084-1097 | A device whose entry does not fit its slot is stopped by every apply |
| `DevicesAgain.FirstConfigIsReached` | src/device/device.c:1061-1181 | From the initial table a valid config is reached exactly when its enabled entries fit and open |
| `DevicesAnswers.RefusedExactlyWhen` | src/device/device.c:936-1043 | A config is refused exactly when an entry lacks a uuid, or enabled a name, kind or driver, or has a long name or an unknown driver; when two entries share a uuid, a name or an endpoint; or when an enabled entry's name or endpoint is held by a device in use that the config does not mention |
| `DevicesAnswers.ApplyToSlot` | src/device/device.c:1061-1128 | An apply lets a device go on exactly if an enabled entry has its uuid, kind, driver, bus and endpoint, gives it that entry's name and active flag, and stops any other |
| `DevicesAnswers.ReachedApart` | src/device/device.c:936-1043 | In a table that has reached an accepted config no two slots in use share a uuid, a name or an endpoint |
| `DevicesStart.EveryRunQueues` | src/device/device.c:844-1208 | Every run queues each uuid once, and only entries that were enabled in a config it accepted |
| `DevicesStart.RevertedTooSoon` | src/device/device.c:1098-1111 | A change of identity taken back before the device stopped comes through: the queued entry is not cancelled |
| `DevicesStart.DroppedTooSoon` | src/device/device.c:1088-1096 | A device queued for its name comes up although the config has dropped it: only slots' uuids are cancelled |
| `DevicesSafety.AddIsDistinctExactlyWhen` | src/device/device.c:411-497 | Adding keeps uuids distinct if and only if it does not pass its checks while a slot in use has the uuid as cut to what the new slot holds |
| `DevicesSafety.AddedExactlyWhen` | src/device/device.c:436-548 | A device is added exactly when its name, kind and driver are given, its name fits, neither name nor uuid is in use, a slot is free, and with plugins loaded its driver is known and opens it |
| `DevicesAnswers.AddAnswers` | src/device/device.c:424-553 | Each refusal of an add has its answer, bad requests first, then collisions; slots in use never change, and a refused add takes no slot |
| `DevicesAnswers.AddedSlot` | src/device/device.c:480-553 | A device that is added has one slot, free before, with its fields as far as the slot's strings hold them, under its own uuid or a new one, and nothing else has changed |
| `DevicesAnswers.RenameAnswers` | src/device/device.c:644-698 | A rename answers 404 without a live device; 200 exactly if the name is given, has at most 31 characters and is no other device's, and then that name and nothing else has changed; else 400 and nothing has |
| `DevicesAnswers.DeleteAnswers` | src/device/device.c:1183-1208 | A delete answers 202 exactly for a uuid in use; that device alone is told to stop, and only entries of that uuid leave the queue |
| `DevicesSafety.DoSafeExactlyWhen` | src/device/device.c:424-1208 | Each operation keeps uuids, live names and plugin contexts in order if and only if none of its adds doubles a uuid |
| `DevicesSafety.RunIsSafeExactlyWhen` | src/device/device.c:424-1208 | Over all runs of add, rename, delete, apply, pending and exit: in-use uuids and live names are distinct and every plugin context is held by one slot or was closed once, all along, if and only if no add doubles a uuid |
| `DevicesSafety.EveryRunIsSafe` | src/device/device.c:424-1208 | With uuids that fit a slot no run does |
| `DevicesSafety.InitialIsSafe` | src/device/device.c:305-315 | The initial table is safe |
| `DevicesSafety.KeptUntilExit` | src/device/device.c:268-303 | A slot keeps its device, and a stopped one stays stopped, until its protothread returned |
| `DevicesSafety.ClosedExactlyOnce` | src/device/device.c:293-299 | A context is closed exactly when no slot holds it, and once |
| `DevicesSafety.LongUuidsCollide` | src/device/device.c:490-497 | Two uuids that differ only past what a slot holds give two devices with one uuid, with or without plugins loaded |
| `DevicesNames.DoNamesExactlyWhen` | src/device/device.c:202-213 | Each operation keeps the names of all slots in use distinct if and only if it is not an apply that gives a device the name of one that is to stop |
| `DevicesNames.RunNamesExactlyWhen` | src/device/device.c:424-1208 | The same over whole runs |
| `DevicesNames.NameSharedWhileStopping` | src/device/device.c:1098-1099 | Such a run: two slots in use share a name until one has stopped |
| `DevicesAway.DeleteIsGone` | src/device/device.c:1183-1208 | Delete answers 202 exactly for a uuid in use, and leaves it neither live nor queued, unless an entry is queued that only its slot would cut to that uuid |
| `DevicesAway.DeletedStaysAway` | src/device/device.c:1155-1208 | A deleted device does not come back in any run that brings nothing its uuid would be made of |
| `DevicesObject.DeviceTable.constructor` | src/device/device.c:305-315 | All slots and places free |
| `DevicesObject.DeviceTable.IsNameTaken` | src/device/device.c:202-213 | Whether another in-use slot has the name |
| `DevicesObject.DeviceTable.IsUuidInUse` | src/device/device.c:411-422 | Whether an in-use slot has the uuid |
| `DevicesObject.DeviceTable.AddDevice` | src/device/device.c:424-553 | Adding, with each refusal in the source's order |
| `DevicesObject.DeviceTable.PendingCancel` | src/device/device.c:844-854 | Cancels every entry of the uuid |
| `DevicesObject.DeviceTable.PendingQueue` | src/device/device.c:856-874 | Replaces the uuid's entry, or takes the first free place, or drops it when full |
| `DevicesObject.DeviceTable.ValidateConfig` | src/device/device.c:936-1017 | Accepts a config exactly when each entry and each pair of entries is valid, in the config's fields |
| `DevicesObject.DeviceTable.ValidateChannels` | src/device/device.c:1019-1042 | ... and no channel is held by a device the config does not mention |
| `DevicesObject.DeviceTable.ApplyConfig` | src/device/device.c:1061-1153 | -1 and no change exactly when the config is refused, in the config's and the slots' fields; else the slots patched and the rest added, and 1 or 0 as something is still to come or not |
| `DevicesObject.DeviceTable.ApplyPending` | src/device/device.c:1155-1181 | Opens the queued entries in order, keeping those that still collide |
| `DevicesObject.DeviceTable.DeleteDevice` | src/device/device.c:1183-1208 | Stops the uuid's device and cancels its reopen |
| `DevicesObject.DeviceTable.RenameDevice` | src/device/device.c:644-698 | Renames a live device unless the name is empty, too long or taken |
| `DevicesObject.DeviceTable.DeviceExit` | src/device/device.c:293-302 | The slot is freed and its context closed |
| `DevicesObject.ReconfigureTwice` | src/device/device.c:1061-1181 | A whole reconfiguration on the arrays reaches the config, and the same config again answers 0 |
| `Jk.EveryRunIsConserved` | src/jk/jk_proto.c:158-279 | Over every run the bytes let in are the frames, the bytes lost and the buffer, in order; bytes fed equal junk stripped, 300 per frame, dropped and buffered; the 32-bit counters agree; every frame has its header, a known type and a right checksum |
| `Jk.DrainPartitions` | src/jk/jk_proto.c:197-276 | Draining cuts the buffer in order into frames, lost bytes and the new buffer, no more frames than asked for |
| `Jk.FeedPartitions` | src/jk/jk_proto.c:158-279 | The same for one call, with what did not fit |
| `Jk.FrameExactlyWhen` | src/jk/jk_proto.c:233-250 | A frame is 300 bytes with its header, one of three types, and last the total of the others in eight bits |
| `Jk.CorruptCounts` | src/jk/jk_proto.c:233-252 | Over every run the 32-bit counter of corrupt frames is the number of stretches lost that begin with a header |
| `Jk.StripsReplies` | src/jk/jk_proto.c:166-178 | What is taken off a chunk is one AT reply in front and one behind |
| `JkReadBack.FramesReadBack` | src/jk/jk_proto.c:158-279 | Whole frames in chunks of at most 213 bytes are all read, in order, whatever is between them that is not itself a whole frame: noise, damaged or cut frames, stray headers; that and only that is dropped, and with no header in it nothing counts as corrupt |
| `JkReadBack.NeverOverflows` | src/jk/jk_proto.c:184-195 | Such chunks never overflow the buffer, and each call leaves less than a frame |
| `JkReadBack.WiderOverflows` | src/jk/jk_proto.c:184-192 | The bound is sharp: chunks of at most 214 bytes can lose one |
| `JkReadBack.NeverLosesExactlyWhen` | src/jk/jk_proto.c:184-195 | Calls kept to a width never overflow, whatever they bring, if and only if the width is at most 213 |
| `JkReadBack.FullBufferIsStuck` | src/jk/jk_proto.c:184-192 | A full buffer is left alone by every call that brings a byte, and drained by one that brings none |
| `JkReadBack.StuckForever` | src/jk/jk_proto.c:184-192 | So after an overflow that fills the buffer no later call with bytes yields a frame |
| `JkObject.FrameAssembler.constructor` | src/jk/jk_proto.c:153-156 | An empty assembler |
| `JkObject.FrameAssembler.Checksum` | src/jk/jk_proto.c:14-22 | The sum of the bytes in eight bits |
| `JkObject.FrameAssembler.FindHeaderFrom` | src/jk/jk_proto.c:200-208 | The first header at or after a place |
| `JkObject.FrameAssembler.Shift` | src/jk/jk_proto.c:222-224 | The move that drops bytes from the front |
| `JkObject.FrameAssembler.Sees` | src/jk/jk_proto.c:197-276 | What one turn of the drain loop finds |
| `JkObject.FrameAssembler.DrainFrames` | src/jk/jk_proto.c:197-276 | The loop computes Drain(), its counters and the last frame |
| `JkObject.FrameAssembler.FeedBytes` | src/jk/jk_proto.c:158-279 | The whole call computes Feed() |
| `JkCommand.CommandReadsBack` | src/jk/jk_proto.c:28-51 | A command reads back as built exactly when its value fits the 13 payload bytes |
| `JkCommand.CommandBytes` | src/jk/jk_proto.c:27-49 | A command byte by byte: header, command, length asked for, value or counter, zeros, and the total in eight bits |
| `JkCommand.RegisterReadsBack` | src/jk/jk_proto.c:61-69 | A register write carries its whole 32-bit value, least significant byte first |
| `JkCommand.BuildCommand` | src/jk/jk_proto.c:28-51 | Building in place, in a reused buffer |
| `JkCommand.BuildRegisterCommand` | src/jk/jk_proto.c:61-69 | The value goes out least significant byte first |
| `HistoryQueue.EveryRunIsFifo` | src/history/history.c:523-583 | Over every run the ring is a drop-oldest queue of 1024: a sample is overrun only when 1024 newer ones were taken, leaves the front into its file exactly if its module has one open, and each file is what it was followed by its module's written samples in order |
| `HistoryQueue.ReadyDiscardsNothing` | src/history/history.c:556-574 | With every registered module's file open no sample is discarded: what left the queue was written or overrun |
| `HistoryQueue.EveryRunIsSpaced` | src/history/history.c:537-539 | A module's samples are at least their capture interval apart, even if the clock steps back |
| `HistoryQueue.FreshRun` | src/history/history.c:424-434 | An empty queue begins such a run |
| `HistoryPolicy.WriteExactlyWhen` | src/history/history.c:556-574 | The oldest sample leaves the queue, and if its module's file is open its row is the last of that file and, if online, shown to each watermark |
| `HistoryPolicy.FlushTakes` | src/history/history.c:550-583 | A flush takes as many samples as it may and there are, oldest first |
| `HistoryPolicy.EnqueueExactlyWhen` | src/history/history.c:523-548 | A sample is taken exactly if its module captures and it is the first or no sooner than its interval after the last; it is then the newest of the queue, which lost its oldest if it held 1024 |
| `HistoryPrune.DeleteCounts` | src/history/history.c:627-632 | The DELETE takes as many expired rows as it may and no other row, the rest in place |
| `HistoryPrune.DeletesOldestFirst` | src/history/history.c:627-632 | Oldest first: no row that goes is later than one that stays |
| `HistoryPrune.SliceDeletesBacklog` | src/history/history.c:640-655 | A slice deletes exactly the backlog of due modules up to its limit, and returning less leaves no expired row in a module it found due |
| `HistoryPrune.SlicesDrain` | src/history/history.c:640-655 | Slices at one time work any backlog off |
| `HistoryPrune.SliceFiles` | src/history/history.c:615-655 | Every file a slice changes belongs to a due module with a policy, and lost only its oldest expired rows |
| `HistoryPrune.PrunedFileKeepsRecent` | src/history/history.c:615-638 | Rows inside the policy stay as they are |
| `HistoryPolicy.SliceByPolicy` | src/history/history.c:587-655 | Over every module of a slice: rows go only where due, only those older than the module's own days or, with none set, its plugin's, none with zero days, oldest first; a slice that returns less than its limit leaves no such row and looks again in an hour |
| `HistoryMarks.ReadAgrees` | src/history/history.c:662-694 | After a re-read the cached watermark is the extreme of its window |
| `HistoryMarks.CountingRow` | src/history/history.c:350-378 | A counting sample leaves the cache right exactly when the marked sample is still in the window or nothing in the window beats the new one |
| `HistoryMarks.OtherRow` | src/history/history.c:350-378 | Any other sample leaves it as it was, right as long as the marked sample is in the window |
| `HistoryMarks.CacheAgrees` | src/history/history.c:350-378 | Between re-reads the cache stays the extreme for as long as the marked sample stays in the window |
| `HistoryMarks.CacheIsSound` | src/history/history.c:350-378 | After a counting sample it is always a sample of the window |
| `HistoryMarks.PruningAgrees` | src/history/history.c:615-638 | Pruning rows older than the window does not disturb it |
| `HistoryMarks.CacheFallsBehind` | src/history/history.c:370-376 | A case where the cache is behind until the next re-read |
| `HistoryMarks.SliceReads` | src/history/history.c:696-713 | Each call re-reads one due module, the others untouched, until none is due |
| `HistoryPolicy.TurnExactlyWhen` | src/history/history.c:662-713 | A call reads the first module that captures, has watermarks and is due, and no other; each becomes the extreme of the online rows in its window that have its column and, where asked, another one not zero; next time in a minute |
| `HistoryObject.HistoryStore.constructor` | src/history/history.c:424-434 | Nothing queued, no module |
| `HistoryObject.HistoryStore.FindModule` | src/history/history.c:49-57 | The first used slot of the uuid |
| `HistoryObject.HistoryStore.EnqueueSample` | src/history/history.c:523-548 | Queueing in the ring, dropping the oldest when full |
| `HistoryObject.HistoryStore.WriteSample` | src/history/history.c:556-574 | The oldest sample goes to its file and past its module's watermarks |
| `HistoryObject.HistoryStore.FlushSlice` | src/history/history.c:550-583 | Writes up to so many samples and says how many |
| `HistoryObject.HistoryStore.Prune` | src/history/history.c:640-655 | The loop over the modules computes PruneSlice() |
| `HistoryObject.HistoryStore.ReadModuleMarks` | src/history/history.c:662-694 | Re-reads each watermark of a module |
| `HistoryObject.HistoryStore.WatermarkSlice` | src/history/history.c:696-713 | Re-reads the first module that is due |
| `Utf8.ValidExactlyWhen` | src/textbelt/tb.c:236-238 | The one-byte-at-a-time machine accepts exactly the strings of section 4 of RFC 3629 |
| `Utf8.CutExactlyWhen` | src/textbelt/tb.c:236-238 | A valid string may be cut exactly where the next byte does not continue a character |
| `Message.PutAllDisplays` | src/textbelt/tb.c:187-200 | put_text() writes the words with one space between them |
| `MessageCut.WordsPart` | src/textbelt/tb.c:187-200 | Bytes up to 32 part words |
| `Message.WholeIsFull` | src/textbelt/tb.c:204-232 | The text built in the 648-byte buffer is the title and the words of the message, as far as a message can show |
| `Message.TextIsShown` | src/textbelt/tb.c:202-244 | A message is its title and its words, cut with dots at the limit; a blank message is nothing, whatever its title |
| `MessageCut.TextIsCut` | src/textbelt/tb.c:202-244 | The same in bytes: title, colon and words if they fit 320 bytes and the buffer; else up to the last character that begins by there, no space behind it, and three dots |
| `Message.TextIsTidy` | src/textbelt/tb.c:202-244 | With cap of at least 5: at most min(cap - 1, 320) bytes, no control, no run of spaces, no space at either end |
| `Message.TextIsValid` | src/textbelt/tb.c:202-244 | Valid text gives valid text, always with cap of at least 5 and with less exactly when the cut falls between characters |
| `MessageObject.PutInto` | src/textbelt/tb.c:187-200 | The loop over the bytes, in a bounded buffer |
| `MessageObject.FindCut` | src/textbelt/tb.c:236-238 | The back-off loop finds the last place not inside a character |
| `MessageObject.BuildText` | src/textbelt/tb.c:202-244 | The whole function computes Text() |
| `Average.Below` | src/phantom/average.c:32-76 | The recursion never gets an empty list, and always a smaller one |
| `Average.NumbersAreMeans` | src/phantom/average.c:9-78 | Every number in the result is the rounded mean of all the numbers the readings have at that place |
| `Average.NumbersAreRounded` | src/phantom/average.c:9-87 | ... of up to 32 readings: of so many ten-thousandths the nearest to total over count, halves away from zero |
| `Average.OnlyTheFirst` | src/phantom/average.c:80-87 | Readings from the 33rd on are left out, and without any there is no result |
| `Average.MeansAreInRange` | src/phantom/average.c:19-31 | ... so within half of 1e-4 of their range |
| `Average.ShapeIsFirst` | src/phantom/average.c:16-78 | The whole result has the shape of the first reading that is not null: at every path without a null both have something or neither, of the same kind, with the same fields or as many items |
| `Average.ChildOfAverage` | src/phantom/average.c:32-76 | One step down, the average is the average of the collected values, led by the first reading's |
| `Average.CopiesAverage` | src/phantom/average.c:9-78 | Copies of any one reading average to it, rounded; a field whose name came before takes the value of the first of that name |
| `AverageLoops.FindFirst` | src/phantom/average.c:16-18 | The first reading that is not null |
| `AverageLoops.AverageNumbers` | src/phantom/average.c:19-31 | The loop over the numbers |
| `AverageLoops.CollectBelow` | src/phantom/average.c:43-50 | The loop that collects one field or item |
| `AverageLoops.AverageNode` | src/phantom/average.c:9-78 | The recursive function with its loops computes AverageOf() |
| `Secret.MaskTwice` | src/rest/secret.c:45-59 | Masking a mask leaves it as it is, whatever the buffer |
| `Secret.MaskHides` | src/rest/secret.c:45-59 | Two secrets have one mask exactly if the same is seen of both: nothing of a short one, the last four characters of a long one, and all that fits of one that begins with eight asterisks |
| `Secret.ReadBackExactlyWhen` | src/rest/secret.c:45-65 | A client reads a secret back whole exactly if it begins with eight asterisks and has at most 31 characters |
| `Secret.MaskModuleAt` | src/rest/secret.c:120-137 | Masking a module masks exactly the leaves named by the dotted key of a secret field, namespace under 32 characters, and nothing else |
| `Secret.RestoreAt` | src/rest/secret.c:139-189 | The leaf a secret field's dotted key names gets its live value exactly if there is one and the client sent nothing, a null or a mask for it; a new value, and every other leaf, is kept |
| `Secret.MaskThenRestore` | src/rest/secret.c:120-189 | A client that sends back the config it was shown changes nothing |
| `Secret.EchoChangesNothing` | src/rest/secret.c:77-101 | What is left of settings sent back as shown is what they were |
| `Secret.MaskSettingsShows` | src/rest/secret.c:77-84 | A client is shown the mask of each secret setting and every other as it is |
| `Secret.CleanBodyKeeps` | src/rest/secret.c:86-101 | Of what a client sends exactly the keys stay, unchanged, whose field is no action, not read-only and, if a secret, not given a mask |
| `Secret.MaskModuleInPlace` | src/rest/secret.c:120-137 | The loop over the fields computes MaskModule() |
| `Secret.MaskSettingsInPlace` | src/rest/secret.c:77-84 | The loop over the items computes MaskSettings() |
| `Secret.CleanBodyInPlace` | src/rest/secret.c:86-101 | The loop that deletes items while it walks leaves exactly those that are settings and no masked secret |
| `Secret.RestoreInPlace` | src/rest/secret.c:139-189 | The loop over the fields computes Restore() |
| `System.CurveIsMonotone` | src/system/system.c:14-45 | Interpolation along a rising curve is monotone |
| `System.CurveIsStraight` | src/system/system.c:28-45 | Between two neighbouring points the curve is the straight line |
| `System.TableIs` | src/system/system.c:14-18 | At each of the thirteen points it is the table's |
| `System.VoltageSocRises` | src/system/system.c:14-45 | A higher resting voltage never shows a lower charge |
| `System.ShownSoc` | src/system/system.c:10-54 | What is shown is a percentage, and for a checked pack at rest within 20 points of its voltage |
| `System.ShownExactlyWhen` | src/system/system.c:10-54 | A checked pack at rest whose own count is more than 20 points off shows what its voltage says, any other its count, kept to 0 to 100 |
| `System.TotalsAddUp` | src/system/system.c:65-144 | Over any modules: charging less discharging is the sum of volts times amperes of the counted packs, nothing is negative, and no more is stored than fits |
| `System.TotalsOfEach` | src/system/system.c:65-144 | Each total is the sum over the modules of what one of that kind, active and online, brings to it |
| `System.SiteSoc` | src/system/system.c:166-183 | The site's charge is a percentage, or -1 when none of the counted packs gives its charge |
| `System.SiteShows` | src/system/system.c:65-183 | Net power is what the chargers bring less what the packs take, never below nothing; the load is the inverters' output if all give it, else that; the charge is stored over capacity, or the packs' average when no size is known, or -1 |
| `System.OutputKnownExactlyWhen` | src/system/system.c:156-159 | The inverters' output is known exactly when there are counted inverters and each reports it |
| `System.AnyOrder` | src/system/system.c:65-144 | The totals do not depend on the order of the modules |
| `SystemObject.ShowSoc` | src/system/system.c:10-54 | Computes DisplaySoc() |
| `SystemObject.SearchCurve` | src/system/system.c:28-45 | The loop along the curve |
| `SystemObject.SiteTotals.AddBattery` | src/system/system.c:76-109 | Updates the totals for one pack |
| `SystemObject.SiteTotals.AddCharger` | src/system/system.c:65-74 | Updates the totals for one charger |
| `SystemObject.SiteTotals.AddBatteryLimit` | src/system/system.c:111-118 | Updates the discharge limit |
| `SystemObject.SiteTotals.AddInverter` | src/system/system.c:120-144 | Updates the totals for one inverter |
| `SystemObject.SiteTotals.Conclude` | src/system/system.c:166-183 | Computes Finish() |

## Left out

- Framer receive times: `mag_frame_idle` takes the seconds of quiet as a parameter, and packets carry no time.
- Framer counters are unbounded; the source's 64-bit wrap-around is not modelled.
- `mag_frame_reset_stream`, `mag_frame_reset_stats`, `mag_frame_classify` and `mag_pkt_name` (src/magnum/mag_frame.c:353-366, 411-460): simple resets and lookups.
- MagFrameRefinement.ChunkIndependence: is for runs of feeds in which the relearn fires under neither cutting, because it is false otherwise (MagFrameLimits.RelearnDependsOnTheCut).
- Scheduler: a thread body is what it does between two blocking points; computed labels, `pt_call`, interrupt critical sections, the ready function, debug fields and allocation are not part of this model.
- ProtoThread.Scheduler.Join: assumes that no two scheduled threads have one address, as two live objects in memory cannot.
- ProtoThreadTick.Tick: is for bodies that wait on the tick again or finish, and create threads not scheduled before; no thread is being joined meanwhile.
- Devices: a slot has its identity, name, active flag, stop flag and context; poll, capture and retention settings, readings, the checks on their ranges in `validate_apply`, log lines and history registration are left out.
- Devices without a scheduler (`g_pts` null, used by route tests), where a stopped slot is cleared at once.
- DevicesObject.DeviceTable.ValidateConfig: answers yes or no, on identity, names, drivers and endpoints; the poll and capture intervals, and which message is given first, are not modelled.
- DevicesObject.DeviceTable.RenameDevice: is the name part of `mf_devices_put_settings`; the other settings are left out.
- DevicesExact.ConvergesExactlyWhen: supposes that at most 16 devices are in use or queued at the start and that what is queued fits a slot.  When an entry that an earlier config queued and this one does not want cannot be opened, only one direction is stated: whether it is dropped depends on whose name is in use when its turn comes.
- DevicesExact.ReconfigureSettles: is for entries that fit their slots; for the others DevicesAgain.MisfitIsStopped says what happens.
- DevicesConverge.AddAllMidway: is for entries that fit their slots.
- DevicesConverge.ReopenAllRests: is for entries that fit their slots.
- DevicesAgain.ApplyTwice: is for a config that is reached, as it is about applying that again.
- DevicesObject.ReconfigureTwice: is for a config that is reached; when one is, DevicesExact.ConvergesExactlyWhen says.
- DevicesSafety.EveryRunIsSafe: is for uuids that fit a slot; for the others DevicesSafety.RunIsSafeExactlyWhen says when it holds.
- DevicesSafety.RunIsSafeExactlyWhen: supposes that a generated uuid is not empty, which `uuid_generate` sees to.
- Bus and endpoint of a config entry are given; how they are read from JSON is left out.
- Jk.EveryRunIsConserved: the decoders, the value clamps and the switch command of src/jk/jk_proto.c are left out, the caller's frame count is not negative.
- HistoryObject.HistoryStore.WriteSample: does not model an INSERT that fails, after which the source goes on to the next sample.
- History: SQL, schema, column back-fill, migration and files; a module's file is a sequence of rows, and equal times go in row order.
- History registration, retirement and retention (src/history/history.c:461-521, 592-613): the module table is given; queries and graphs are left out.
- HistoryMarks.CountingRow: is for numeric columns, as the header declares them; a column that also holds true and false counts in the file but not in the cache.
- Message: strings carry no zero byte, as C strings cannot; sending, recipients and replies are left out.
- Average.NumbersAreMeans: over real numbers; rounding to four decimals is modelled, floating-point error is not.
- Secret.RestoreAt: JSON objects are maps, so the order of fields and repeated fields are not modelled.
- Secret.MaskThenRestore: the same; and printing the result into a bounded buffer is left out.
- Secret.RestoreInPlace: does not model parsing, printing the result into a bounded buffer, or the return code.
- Secret.CleanBodyInPlace: is for a body that has no name twice; with one, the source deletes the first of that name.
- System: real numbers in place of doubles; configured maxima and the other three "known" predicates, which are alike, are left out.
- HTTP, REST routes, the TUI, plugins, sockets, serial and Bluetooth: foreign code, seen here only as inputs.
