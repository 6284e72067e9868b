# ePHPm core, modelled and proved in Dafny

ePHPm embeds PHP in a multi-threaded server. This project models the parts of it
whose correctness is hard to see from the code: protocols that span threads, state
machines that span requests, and algorithms with a short specification. Each model
does what the code does, branch by branch, and the theorems say what that amounts to
over every input, every trace of engine events, or every interleaving.

Check everything with `dafny verify dfyconfig.toml`.

| files | what they model | main theorems |
|---|---|---|
| `SessionLock`, `SessionLockSafety`, `SessionLockOrphans`, `SessionSerial`, `SessionHandler` | the session save handler: a TTL lock with a token per acquisition, taken by `set_nx`, given back by compare-and-delete, around the read-modify-write of the session blob | `MutualExclusion`, `NoSecondGrant`, `ReleaseTakesOnlyItsOwn`, `NoOrphan`, `ReleaseForgets` with `ReleaseMayOrphan`, `ServedSerialisable` |
| `Bailout`, `RequestRun`, `RequestIni`, `ExecTimer` | one request on a PHP thread: three-span bailout classification, middleware chain, INI overrides, execution timer | `Classified`, `VerdictIsCause`, `RunRequest`, `Serve`, `LiveThenArm` |
| `WorkerScript`, `Worker` | the worker-mode loop: generations, lazy Envelope accessors, body streams, responses made up for a script that ends early | `Run` |
| `CrashGuard`, `GuardedRun` | the recovery point for stack overflows and hard memory limits, over threads and forked processes | `EveryJumpIsSafe`, `HardLimitContained`, `ForkedChildExits`, `WindowExact`, `Guard.Run` |
| `LineDiff` | the LCS diff of the conformance report | `UnifiedDiff` |
| `BuildStamp`, `Decimals` | the civil date and time of a build | `StampIsRight`, `ConsecutiveDays` |
| `KvKey`, `KvTtl`, `HeaderCapture` | key validation, TTL arithmetic, response header capture | `Utf8Valid`, `AcceptedExactly`, `CaptureResponse` |
| `PinBump` | staged substitutions of the pin bumper | `ApplyAll` |
| `Options`, `Words` | the option type and the ranges of machine integers | |

## How the environment enters

The engine, the store, the network, the clock and the allocator appear as arguments:
what `set_nx` answers and whether it lands, how much time passes, whether memory is
available, what the engine did inside a phase. A theorem over all arguments is a
theorem over all behaviours of the environment. Tokens are drawn fresh, as the code's
128-bit random tokens are meant to be. The engine calls do what the comments beside
them say they do.

## Where the code falls short of a natural reading

Each property below fails on inputs that a lemma names, and another lemma gives the
exact condition under which it holds.

- The fault test of the crash guard is not the window [lo - 65536, lo + 4096] whenever
  lo + 4096 fits in 64 bits: the sum addr + 65536 can wrap as well.
  `CrashGuard.SlackAloneIsNotEnough` gives a bound and an address,
  `CrashGuard.WindowExact` the exact condition, lo + 4096 + 65536 < 2^64.
- Giving a lock up can leave its entry behind even though the compare-and-delete
  reached the store: a `set_nx` answered "unknown" may arrive after it
  (`SessionLockOrphans.OrphanHappens`). `ReleaseForgets` and `ReleaseMayOrphan` show that
  this and a lost delete are the only ways. The entry then lasts at most for its TTL
  (`EntryOutlived`).
- An exit freed without a frame vouches for a later real bailout of the same span. The
  comment at `crates/ephpm-php/ephpm_wrapper.c:857-872` says that nothing runs after the
  last free of a mount's exit, but the mount's static variables are destroyed after it
  (line 1840), and a destructor that bails out there is taken for an exit.
  `RequestRun.CrashKeepsStatus` is that request: it keeps its status, unless the bailout
  leaves a fatal error behind and the status is the default 200, which still becomes 500.
  `Bailout.VerdictRight` and `Bailout.VerdictIsCause` state exactly when a verdict is
  right. Of the engine they assume only that an exit bails out right after its object is
  freed without a frame.
- A request that is begun and then never run leaves its INI overrides in the buffer for
  its successor (`RequestIni.LeftoverHappens`, `RequestIni.OwnOverrides`). Isolation is
  proved for a host that runs what it begins (`RequestIni.IniIsolation`).
- A response can be made up although its request already has one: the script exits in
  the middle of a request, and a destructor streams the answer and is cut short by a
  bailout that passes for the exit (`WorkerScript.CutMayBeVouched`, `Worker.MadeUpForNobody`).
  For a script that answers each request before it takes the next, `Worker.Worker.Run`
  states that this is the only way: a response is made up exactly if the last request has
  no answer, if and only if the script did not end in a cut stream with that request
  still in flight. No request gets a second answer either way.
- The generation counter wraps. Isolation is proved for as many requests as the counter
  has values, and `WorkerScript.StaleLooksCurrent` says exactly when a stale stamp looks
  current.

## Model

| member | source | states |
|---|---|---|
| `SessionLock.ExecSnoc` | crates/ephpm-php/ephpm_wrapper.c:7033-7257 | a run of the lock protocol extended by any step enabled at its end is a run, and ends where that step leads; ties the handler's methods to the transition system |
| `SessionLockSafety.InvStep` | crates/ephpm-php/ephpm_wrapper.c:7007-7257 | every step of every thread, of the clock and of the network keeps the protocol invariant: tokens belong to the acquisition that drew them, young confirmed holders own their entry untouched, every entry is answered for or its clean-up is recorded as lost |
| `SessionLockSafety.InvRun` | crates/ephpm-php/ephpm_wrapper.c:7007-7257 | the invariant holds after every run |
| `SessionLockSafety.LiveEntryKept` | crates/ephpm-php/ephpm_wrapper.c:7007-7141 | a live lock entry is never overwritten, and disappears only by the compare-and-delete of a thread that tracks this session and carries this token |
| `SessionLockSafety.ReleaseTakesOnlyItsOwn` | crates/ephpm-php/ephpm_wrapper.c:7007-7027 | in every reachable state a release (PS_CLOSE, PS_DESTROY, stale lock, out-of-memory undo) never removes a live entry that another acquisition created |
| `SessionLockSafety.NoSecondGrant` | crates/ephpm-php/ephpm_wrapper.c:7033-7141 | while a confirmed, unreleased acquisition is younger than its TTL no `set_nx` for the session creates an entry, answered, landed unknown or delivered late, and nobody else comes to hold it |
| `SessionLockSafety.AttemptExactly` | crates/ephpm-php/ephpm_wrapper.c:7077-7094 | one `set_nx` by its fate: an answer makes a holder exactly if no live entry is in the way, with an entry of 30 s; a refusal changes nothing; an unknown outcome makes no holder and is in the store, nowhere, or still under way |
| `SessionLockSafety.MutualExclusion` | crates/ephpm-php/ephpm_wrapper.c:7033-7141 | in every reachable state at most one thread holds a session |
| `SessionLockOrphans.NoOrphan` | crates/ephpm-php/ephpm_wrapper.c:7007-7141 | after every run in which each compare-and-delete gets through and no holder is abandoned, each lock entry is answered for by exactly one live thread |
| `SessionLockOrphans.ReleaseForgets` | crates/ephpm-php/ephpm_wrapper.c:7007-7027 | wherever a lock is given up (PS_CLOSE, PS_DESTROY, stale lock, out-of-memory undo): if the delete is not lost and the lock's own `set_nx` is not still under way, no entry ever again carries that token, whatever happens next |
| `SessionLockOrphans.ReleaseMayOrphan` | crates/ephpm-php/ephpm_wrapper.c:7084-7094 | the other direction, for the same four places: from every reachable state outside that condition some continuation leaves an entry that no thread will give back |
| `SessionLockOrphans.OrphanHappens` | crates/ephpm-php/ephpm_wrapper.c:7084-7094 | such a run exists from every start: the owner is unreachable, the session is read and closed, the delete reaches the store, and the request lands afterwards |
| `SessionLockOrphans.EntryOutlived` | crates/ephpm-php/ephpm_wrapper.c:6918-6919 | in every reachable state an entry has at most one TTL to live, so an orphaned one is in nobody's way after 30 s |
| `SessionLockOrphans.GoneForever` | crates/ephpm-php/ephpm_wrapper.c:7007-7141 | a token that no entry, no message and no waiting thread carries never comes back |
| `SessionSerial.BlobStep` | crates/ephpm-php/ephpm_wrapper.c:7184-7257 | a protected step changes the stored blob by exactly the update it stores, applied to the current blob |
| `SessionSerial.CopiesStep` | crates/ephpm-php/ephpm_wrapper.c:7184-7257 | every copy held under a live lock stays equal to the stored blob |
| `SessionSerial.Serialisable` | crates/ephpm-php/ephpm_wrapper.c:7033-7257 | after every run whose accesses to a session's blob happen under a confirmed lock younger than its TTL, the stored blob is the sequential application of all updates, in the order in which the lock was granted |
| `SessionSerial.ServedIsProtected` | crates/ephpm-php/ephpm_wrapper.c:7033-7257 | requests that get their lock, close within the TTL and do not destroy the session only access its blob under that lock |
| `SessionSerial.ServedSerialisable` | crates/ephpm-php/ephpm_wrapper.c:6873-7257 | no lost update: in every interleaving in which each request for a session gets the lock and closes within the TTL, the stored blob is the sequential application of all updates in lock order |
| `SessionHandler.Pacing` | crates/ephpm-php/ephpm_wrapper.c:7099-7107 | the backoff doubles from 10 ms to 100 ms, the sleeps add up, and a full sleep that starts within the budget is at most the 303rd |
| `SessionHandler.PacedStep` | crates/ephpm-php/ephpm_wrapper.c:7095-7107 | every turn of the loop, with its sleep in full or cut short, keeps the account of time that bounds the attempts |
| `SessionHandler.LeadsIsRun` | crates/ephpm-php/ephpm_wrapper.c:7033-7257 | what the handler has gone through is a run of the protocol |
| `SessionHandler.Handler.AlwaysReachable` | crates/ephpm-php/ephpm_wrapper.c:7033-7257 | every state the handler leaves is a reachable state, so the theorems about all runs apply to it |
| `SessionHandler.Handler.constructor` | crates/ephpm-php/ephpm_wrapper.c:6931-6940 | a thread that has not entered a session yet, at the start of a run |
| `SessionHandler.Handler.Prepare` | crates/ephpm-php/ephpm_wrapper.c:7042-7075 | the lock of another session goes back first, a lock already held is kept, otherwise a token is drawn and a free session nobody touches stays free |
| `SessionHandler.Handler.Enter` | crates/ephpm-php/ephpm_wrapper.c:7042-7048 | a second start of the same session finds its lock held, and only then |
| `SessionHandler.Handler.LetGo` | crates/ephpm-php/ephpm_wrapper.c:7049-7053 | a lock left over from another session is given back, and with a delete that gets through no entry carries its token |
| `SessionHandler.Handler.Draw` | crates/ephpm-php/ephpm_wrapper.c:7073-7075 | the token is one that no acquisition has drawn; the store is untouched |
| `SessionHandler.Handler.Attempt` | crates/ephpm-php/ephpm_wrapper.c:7077-7094 | one `set_nx`: an answer is a confirmed grant or none and it is none only with a live entry in the way, a refusal is none, an unknown outcome is a grant that is not confirmed; a confirmed grant makes the thread a holder from this moment |
| `SessionHandler.Handler.Sleep` | crates/ephpm-php/ephpm_wrapper.c:6987-6993 | a sleep takes as long as asked and perhaps longer, or as long as the signal that cuts it short allows |
| `SessionHandler.Handler.Turn` | crates/ephpm-php/ephpm_wrapper.c:7077-7108 | one turn of the retry loop: a miss within the budget sleeps exactly the backoff, clipped to what is left of the budget |
| `SessionHandler.Handler.Round` | crates/ephpm-php/ephpm_wrapper.c:7077-7108 | a turn in step with the budget and the doubling backoff: it ends the loop by its answer, or the time left or the signals left grow less; an undisturbed answered attempt on a free session is granted |
| `SessionHandler.Handler.Retry` | crates/ephpm-php/ephpm_wrapper.c:7077-7108 | the loop from any attempt on: it ends by the answer of its last attempt, all earlier ones having been answered without a grant |
| `SessionHandler.Handler.Spin` | crates/ephpm-php/ephpm_wrapper.c:7077-7108 | the retry loop ends whatever the others do, with a grant or after 30 s of wall time, after at most 304 attempts plus one for every sleep that a signal cut short, and at the first attempt that is granted or answered unknown; a free session nobody touches is granted at the first attempt |
| `SessionHandler.Handler.Acquire` | crates/ephpm-php/ephpm_wrapper.c:7033-7141 | each outcome with what the thread tracks afterwards, with other threads and the clock acting between all its steps: out of memory only if memory is short, and then no entry of its own is left if the delete gets through; confirmed or unconfirmed only with memory; given up only after 30 s; a confirmed lock is held for as long as it is young; a free session nobody touches is confirmed |
| `SessionHandler.Handler.Record` | crates/ephpm-php/ephpm_wrapper.c:7110-7141 | the end of the loop decides the outcome exactly: no grant, no memory for the session id (the grant is undone), or recorded as confirmed or not |
| `SessionHandler.Handler.PsRead` | crates/ephpm-php/ephpm_wrapper.c:7184-7232 | the blob is read after the lock step, a missing blob reads as the empty string, and a confirmed lock still young at the read protects it |
| `SessionHandler.Handler.PsWrite` | crates/ephpm-php/ephpm_wrapper.c:7236-7257 | stores the updated copy, or on failure leaves the blob as it was; touches no lock and no other blob |
| `SessionHandler.Handler.PsClose` | crates/ephpm-php/ephpm_wrapper.c:7169-7180 | gives up the tracked lock and no other, does nothing to the locks without one, and never touches the blobs |
| `SessionHandler.Handler.PsDestroy` | crates/ephpm-php/ephpm_wrapper.c:7261-7287 | gives up the lock of this session if it is the one tracked, leaves all other locks, and the blob is gone |
| `LineDiff.LcsUpperBound` | xtask/src/cli_conformance.rs:735-741 | no common subsequence of two line lists is longer than the table entry |
| `LineDiff.KeptIsCommon` | xtask/src/cli_conformance.rs:743-758 | the kept lines of any diff are a common subsequence of what it spells |
| `LineDiff.TableIsLcs` | xtask/src/cli_conformance.rs:735-741 | the recurrence by positions is the recurrence on suffixes |
| `LineDiff.FillTable` | xtask/src/cli_conformance.rs:735-741 | each table entry is the recurrence's value at its position |
| `LineDiff.StayOnTrack` | xtask/src/cli_conformance.rs:743-756 | each branch of the traceback keeps the emitted prefix correct and gives away no kept line |
| `LineDiff.NextRight` | xtask/src/cli_conformance.rs:743-756 | each line emitted while both inputs last is the prescribed choice |
| `LineDiff.RestRight` | xtask/src/cli_conformance.rs:757-762 | so is each line emitted when one input is used up |
| `LineDiff.Traceback` | xtask/src/cli_conformance.rs:742-764 | the emitted lines spell both inputs, no common subsequence is longer than the kept lines, and every line is the choice the walk prescribes: kept if the next lines agree, removed on a tie |
| `LineDiff.LinesSpell` | xtask/src/cli_conformance.rs:768-774 | the lines of a text with their endings spell the text |
| `LineDiff.LinesCut` | xtask/src/cli_conformance.rs:768-774 | each line holds no newline and is cut clean: a carriage return before the newline belongs to the ending, and only the last line can lack one |
| `LineDiff.ParseRender` | xtask/src/cli_conformance.rs:742-764 | the printed text determines the tagged lines: reading it back gives the diff |
| `LineDiff.RenderTerminated` | xtask/src/cli_conformance.rs:742-764 | every printed line ends in a newline |
| `LineDiff.UnifiedDiff` | xtask/src/cli_conformance.rs:724-764 | the size guard fires exactly above 500 lines; otherwise the printed text reads back as a correct and optimal diff of the two line lists, with ties resolved as the walk does, each line terminated |
| `BuildStamp.CivilIsRight` | crates/ephpm-php/build.rs:546-554 | for every day count the date is a valid Gregorian date whose count, made year by year and month by month from the calendar's rules, is that day |
| `BuildStamp.ConsecutiveDays` | crates/ephpm-php/build.rs:546-555 | the next day count gives the next date by the calendar's rule |
| `BuildStamp.CivilInverts` | crates/ephpm-php/build.rs:546-555 | every valid date from 1970 on is the date of its own count |
| `BuildStamp.SameCount` | crates/ephpm-php/build.rs:546-555 | the independent count determines the date |
| `BuildStamp.YearOfEraFits` | crates/ephpm-php/build.rs:549-550 | the year-of-era formula puts every day of a 400-year era into its March year, leap days included |
| `BuildStamp.FromMarchCounts` | crates/ephpm-php/build.rs:551-554 | month and day picked within a March year match the independent count |
| `BuildStamp.NoFallback` | crates/ephpm-php/build.rs:543-555 | for every u64 timestamp neither `unwrap_or` value is used, and the day shift and the year fit a signed 64-bit integer |
| `BuildStamp.DateReadsBack` | crates/ephpm-php/build.rs:555-557 | the date text reads back as the date, with a known month name, digits, a blank-padded day and single blanks between fields |
| `BuildStamp.TimeReadsBack` | crates/ephpm-php/build.rs:558 | the time text reads back as the second of the day, with two digits per field, colons between, hours below 24, minutes and seconds below 60 |
| `BuildStamp.StampIsRight` | crates/ephpm-php/build.rs:540-560 | for every u64 timestamp the two strings read back as the valid date whose count is secs / 86400 and as secs % 86400 with every field in its range (format: section 6.10.8.1 of ISO/IEC 9899:2011) |
| `Decimals.ValueOfDecimal` | crates/ephpm-php/build.rs:557 | a numeral reads back as its number, without leading zeros |
| `Decimals.ValueOfSigned` | crates/ephpm-php/ephpm_wrapper.c:300-301 | the same for a signed number |
| `Bailout.FeedFlags` | crates/ephpm-php/ephpm_wrapper.c:873-879 | after any event trace the two flags say whether there was a bailout and whether an exit was freed frameless before the first one |
| `Bailout.SpanVerdict` | crates/ephpm-php/ephpm_wrapper.c:1716-1735 | one span, whatever happens in it: the new state, and the engine's flag as the disjunction of old and new bailouts |
| `Bailout.IrrelevantFrees` | crates/ephpm-php/ephpm_wrapper.c:857-879 | taking every exit freed with a live frame or after a bailout out of a trace leaves all flags as they were: such exits vouch for nothing |
| `Bailout.FeedLast` | crates/ephpm-php/ephpm_wrapper.c:2347-2350 | the fatal bits and the status after a trace are those of its last error and its last status |
| `Bailout.VerdictRight` | crates/ephpm-php/ephpm_wrapper.c:1716-1735 | exactly when the verdict on a span is right, against the true cause of its first bailout: that bailout is an exit, or no exit was freed frameless before it |
| `Bailout.Classified` | crates/ephpm-php/ephpm_wrapper.c:1716-1735 | over any number of spans with any traces: GENUINE if and only if some span bailed out with no frameless exit before, NONE if and only if none bailed out, EXIT otherwise; `CG(unclean_shutdown)` ends as the disjunction of all bailouts |
| `Bailout.VerdictIsCause` | crates/ephpm-php/ephpm_wrapper.c:2134-2361 | exactly when the verdict on a whole request differs from the cause: there were real bailouts, and each of them came after a frameless free in its span; it is then EXIT instead of GENUINE |
| `Bailout.CrashPassesForExit` | crates/ephpm-php/ephpm_wrapper.c:1822-1842 | a trace on which it does: an exit freed with no frame left, then a real bailout in the same span, with or without a fatal error before it |
| `RequestRun.Started` | crates/ephpm-php/ephpm_wrapper.c:1890-1905 | the number of mounts that are started: everything before the last of them continued, and if any is left over the last did not |
| `RequestRun.FailsClosed` | crates/ephpm-php/ephpm_wrapper.c:1877-1908 | a mount that does not continue stops every later mount and the application |
| `RequestRun.AllContinuedIs` | crates/ephpm-php/ephpm_wrapper.c:1890-1905 | the application may run exactly if every mount returned CONTINUE, none bailed out, and no fatal error stood after any of them |
| `RequestRun.ChainIs` | crates/ephpm-php/ephpm_wrapper.c:1877-1908 | what the chain decides, from the last mount started: its own answer, FATAL for a CONTINUE that is not believed, and for a jump RESPOND exactly if an exit vouches for it |
| `RequestRun.Thread.Play` | crates/ephpm-php/ephpm_wrapper.c:873-879 | the flags after a trace, event by event |
| `RequestRun.Thread.Begin` | crates/ephpm-php/ephpm_wrapper.c:1716-1724 | opening a span refines the specification |
| `RequestRun.Thread.End` | crates/ephpm-php/ephpm_wrapper.c:1726-1735 | closing a span refines the specification |
| `RequestRun.Thread.RunMount` | crates/ephpm-php/ephpm_wrapper.c:1890-1904 | one mount: it counts as continued exactly if it returned CONTINUE with no bailout and no fatal error left behind |
| `RequestRun.Thread.RunChain` | crates/ephpm-php/ephpm_wrapper.c:1877-1908 | the mounts entered are the first ones in order, up to and including the first that does not continue; a jump leaves the cursor on the mount it came from |
| `RequestRun.MountJump` | crates/ephpm-php/ephpm_wrapper.c:2191-2229 | a jump out of a mount is a bailout of the first span and ends the chain there, as a response if an exit vouches for it and as a fatal otherwise |
| `RequestRun.CrashKeepsStatus` | crates/ephpm-php/ephpm_wrapper.c:1822-1842 | such a request: its only mount exits, the exit is freed with no frame left, and a destructor of the mount's static variables bails out; it is answered as an exit, with the status it had, and 500 only if the bailout left a fatal error and the status was the default |
| `RequestRun.Thread.RunApp` | crates/ephpm-php/ephpm_wrapper.c:2176-2188 | the application script: entered, and its end reported |
| `RequestRun.Thread.Scripts` | crates/ephpm-php/ephpm_wrapper.c:2165-2211 | the application script is entered if and only if all mounts continued |
| `RequestRun.Thread.FirstPhase` | crates/ephpm-php/ephpm_wrapper.c:2155-2229 | mount count, chain outcome and result after the first span, jumps out of a mount included |
| `RequestRun.Thread.Settle` | crates/ephpm-php/ephpm_wrapper.c:2213-2229 | what a jump turns out to have been: exit or bailout, and whose |
| `RequestRun.Thread.Phase` | crates/ephpm-php/ephpm_wrapper.c:2274-2294 | the shutdown-function and flush phases are spans of their own |
| `RequestRun.Thread.RunRequest` | crates/ephpm-php/ephpm_wrapper.c:2134-2361 | the whole request, for every mount list and every trace: fails closed, mount count equals mounts started, the final state is the verdict on the three spans, the engine's flag the disjunction of their bailouts; the status is 500 exactly if the state is GENUINE, the script set 500, or a fatal error left the default, and the script's own otherwise; the result code in each case |
| `RequestIni.AlterAllIsOverridden` | crates/ephpm-php/ephpm_wrapper.c:509-520 | replaying overrides in order equals laying them over the table: for each entry the last accepted value wins |
| `RequestIni.LastValueIs` | crates/ephpm-php/ephpm_wrapper.c:509-520 | the value in force for an entry is given by some accepted override and by none after it; without one nothing is in force |
| `RequestIni.AlterAllKeeps` | crates/ephpm-php/ephpm_wrapper.c:509-520 | whatever is altered, a deactivation still brings the start-up table back |
| `RequestIni.OverriddenTwice` | crates/ephpm-php/ephpm_wrapper.c:2104-2113 | applying the overrides before and after start-up is applying them once |
| `RequestIni.Thread.constructor` | crates/ephpm-php/ephpm_wrapper.c:417-424 | a thread with an empty buffer and the request that thread start-up leaves open |
| `RequestIni.Thread.SetIni` | crates/ephpm-php/ephpm_wrapper.c:1629-1644 | appends a pair unless 16 are buffered or the copy fails |
| `RequestIni.Thread.Apply` | crates/ephpm-php/ephpm_wrapper.c:509-520 | the in-place replay refines the fold and keeps what a deactivation restores |
| `RequestIni.Thread.Reset` | crates/ephpm-php/ephpm_wrapper.c:523-532 | empties the buffer |
| `RequestIni.Thread.Shutdown` | crates/ephpm-php/ephpm_wrapper.c:1980-1983 | request shutdown restores the start-up table |
| `RequestIni.Thread.Begin` | crates/ephpm-php/ephpm_wrapper.c:1962-2117 | the table after start-up is the start-up table with the buffered overrides, whether or not start-up resets entries; so is the table the upload parser reads, unless it runs after such a reset; a failed start-up leaves no request, no override and an empty buffer |
| `RequestIni.Thread.Run` | crates/ephpm-php/ephpm_wrapper.c:2134-2361 | the script sees the table with the time limit mirrored, its own changes are laid over that, and the buffer is empty afterwards |
| `RequestIni.Thread.Finish` | crates/ephpm-php/ephpm_wrapper.c:2406-2422 | the start-up table is back, and finishing twice is harmless |
| `RequestIni.Thread.SetAll` | crates/ephpm-php/ephpm_wrapper.c:1629-1644 | of the overrides that are buffered the first 16 remain, in order |
| `RequestIni.Thread.ServeOne` | crates/ephpm-php/ephpm_wrapper.c:1962-2422 | one request taken as far as the host takes it; the script's own changes stand until the request is finished |
| `RequestIni.Thread.Serve` | crates/ephpm-php/ephpm_wrapper.c:1962-2422 | any sequence of requests with failed start-ups and requests never finished or never run: each script sees the start-up table with exactly the overrides in force for it, and with a host that runs every request it starts these are its own first 16 |
| `RequestIni.SeesIs` | crates/ephpm-php/ephpm_wrapper.c:2134-2361 | what a script sees, entry by entry: the configured limit in max_execution_time if it is accepted, else the last accepted override, else the start-up value |
| `RequestIni.OwnOverrides` | crates/ephpm-php/ephpm_wrapper.c:2076-2090 | the overrides in force are the request's own if its predecessor left nothing in the buffer, and for a request with fewer than 16 only then |
| `RequestIni.LeftoverHappens` | crates/ephpm-php/ephpm_wrapper.c:2352-2358 | a request that is begun and never run hands its override to a successor that buffered none |
| `RequestIni.IniIsolation` | crates/ephpm-php/ephpm_wrapper.c:2352-2358 | with predecessors that were all run once started, the overrides in force for a request are its own first 16 |
| `ExecTimer.ConsistentForever` | crates/ephpm-php/ephpm_wrapper.c:267-276 | no history of limits, expiries, disarms and arms leaves a timer running without a recorded limit, or takes the timer's signal away |
| `ExecTimer.Thread.Alter` | crates/ephpm-php/ephpm_wrapper.c:306-313 | altering the entry is a disarm and a complete arm |
| `ExecTimer.Thread.Arm` | crates/ephpm-php/ephpm_wrapper.c:294-324 | after arming: one fresh countdown of the configured seconds, or none, its signal reaches the thread, nothing pending, and the entry shows the configured value when altering it succeeds; where the entry is current it costs one `timer_settime` for a positive limit |
| `ExecTimer.Thread.LiveThenArm` | crates/ephpm-php/ephpm_wrapper.c:294-324 | the same after any history of earlier requests on the thread; an entry that cannot be altered stays as that history left it |
| `CrashGuard.WindowExact` | crates/ephpm-php/crash_guard.c:260-283 | the wrapping 64-bit fault test equals the integer window for every address if and only if lo + 4096 + 65536 does not overflow |
| `CrashGuard.SlackAloneIsNotEnough` | crates/ephpm-php/crash_guard.c:260-283 | a bound with lo + 4096 in range and an address in the window that the test refuses |
| `CrashGuard.InvStep` | crates/ephpm-php/crash_guard.c:198-331 | every step of nested guards, faults, exits and forks keeps the thread and owner invariants, among them that a process inside a guard has an owner |
| `CrashGuard.LandsOutside` | crates/ephpm-php/crash_guard.c:198-245 | a jump from an armed thread leaves all its activations, with both flags clear |
| `CrashGuard.EveryJumpIsSafe` | crates/ephpm-php/crash_guard.c:198-331 | every `siglongjmp` of every run lands in an activation still live on that thread, a contained exit in the process that armed the guard; a thread outside all guards has both flags clear |
| `CrashGuard.FaultOutcome` | crates/ephpm-php/crash_guard.c:260-283 | a fault is contained exactly inside guarded work that asked for it and within the window of its bound, and then the outermost guard returns; any other ends the process |
| `CrashGuard.ExitOutcome` | crates/ephpm-php/crash_guard.c:309-331 | an exit is contained exactly inside guarded work, with status 137, in the process that armed first; any other is a real exit |
| `CrashGuard.OwnerForever` | crates/ephpm-php/crash_guard.c:211-213 | over every run a process keeps the owner it has, and one without can only come to own itself |
| `CrashGuard.HardLimitContained` | crates/ephpm-php/crash_guard.c:309-331 | over every run, a process that was there before any guard contains each hard-limit exit inside guarded work |
| `CrashGuard.ForkedChildExits` | crates/ephpm-php/crash_guard.c:309-331 | a child forked from a process that had armed a guard never jumps, whatever it does afterwards: its exit is a real exit |
| `CrashGuard.ChildrenExit` | crates/ephpm-php/crash_guard.c:309-331 | a forked or vforked child never jumps: its exit is a real exit |
| `GuardedRun.Guard.constructor` | crates/ephpm-php/crash_guard.c:198-210 | a thread before its first guard |
| `GuardedRun.Guard.TryRecover` | crates/ephpm-php/crash_guard.c:260-283 | the order of the tests refines the containment predicate; a contained fault disarms the guard, any other leaves it |
| `GuardedRun.Guard.WrapExit` | crates/ephpm-php/crash_guard.c:309-331 | an exit is contained exactly for status 137, armed, in the owning process, and then both flags are clear |
| `GuardedRun.Guard.Work` | crates/ephpm-php/crash_guard.c:198-245 | work inside an armed region: a jump goes to the outermost activation, and only the first fault or exit matters |
| `GuardedRun.Guard.Run` | crates/ephpm-php/crash_guard.c:198-245 | an outermost call returns with the code of the first fault or exit and both flags clear, unless the process died; a nested call arms nothing and lets a jump pass |
| `KvKey.SplitWellFormed` | crates/ephpm-php/ephpm_wrapper.c:4329-4365 | a non-empty string is well formed if and only if the length its first byte announces is a character and the rest is well formed |
| `KvKey.RangeIsGrammar` | crates/ephpm-php/ephpm_wrapper.c:4352-4361 | judging a character by continuation bytes and code point range is judging it by the grammar of section 4 of RFC 3629 |
| `KvKey.CheckChar` | crates/ephpm-php/ephpm_wrapper.c:4349-4361 | one multi-byte character, without reading past the end |
| `KvKey.Utf8Valid` | crates/ephpm-php/ephpm_wrapper.c:4329-4365 | accepts a byte string if and only if it is a concatenation of UTF8-char as defined in section 4 of RFC 3629 |
| `KvTtl.AcceptedExactly` | crates/ephpm-php/ephpm_wrapper.c:4390-4406 | a positive TTL is accepted if and only if the absolute expiry fits a signed 64-bit integer, with no overflow on the way; the session variant agrees and reads a refusal as no expiry |
| `KvTtl.ReadBack` | crates/ephpm-php/ephpm_wrapper.c:4585-4602 | reading back gives the remaining time rounded up to seconds, and within the first second the TTL itself |
| `KvTtl.NoExpiry` | crates/ephpm-php/ephpm_wrapper.c:4390-4406 | no TTL means no expiry in both variants, an accepted one is its milliseconds, and the answers for no expiry and no such key pass through |
| `HeaderCapture.Colon` | crates/ephpm-php/ephpm_wrapper.c:746-751 | the position of the first colon, or the length |
| `HeaderCapture.SplitIs` | crates/ephpm-php/ephpm_wrapper.c:746-761 | a line is a header exactly if it has a colon; it is then name, colon, blanks and value, with no colon in the name and no blank before the value |
| `HeaderCapture.ContentTypeIs` | crates/ephpm-php/ephpm_wrapper.c:760 | the test for Content-Type is equality but for the case of letters |
| `HeaderCapture.ExpectedIs` | crates/ephpm-php/ephpm_wrapper.c:763-807 | the headers a response should have: the script's own, and without a Content-Type among them the recorded type or the default, left out only if it does not fit 255 characters |
| `HeaderCapture.Landed` | crates/ephpm-php/ephpm_wrapper.c:725-738 | the length test after the two appends tells exactly whether both landed, and older spans keep their contents |
| `HeaderCapture.Capture.constructor` | crates/ephpm-php/ephpm_wrapper.c:711-713 | an empty capture |
| `HeaderCapture.Capture.Append` | crates/ephpm-php/ephpm_wrapper.c:689-700 | appends all or nothing, growing by doubling; it can only miss when an allocation fails |
| `HeaderCapture.Capture.GrowSpans` | crates/ephpm-php/ephpm_wrapper.c:719-725 | room for one more span, or a failure that changes nothing |
| `HeaderCapture.Capture.CaptureOne` | crates/ephpm-php/ephpm_wrapper.c:716-739 | the captured list gains exactly this header or nothing, and gains it when no allocation fails |
| `HeaderCapture.Capture.CaptureLine` | crates/ephpm-php/ephpm_wrapper.c:746-761 | a line without a colon is dropped, otherwise its split is captured; the answer says whether it is a Content-Type |
| `HeaderCapture.Capture.CaptureLines` | crates/ephpm-php/ephpm_wrapper.c:763-779 | the captured list is the split lines in order with some left out, and the whole list when no allocation fails |
| `HeaderCapture.Capture.CaptureResponse` | crates/ephpm-php/ephpm_wrapper.c:763-807 | the same for the whole response, with the default Content-Type when the script set none; every committed span lies inside the buffer, and the buffer holds nothing of an earlier response |
| `PinBump.JoinSplit` | xtask/src/bump.rs:88-99 | cutting a text at a needle and joining it with that needle gives the text back |
| `PinBump.ReplaceBySelf` | xtask/src/bump.rs:88-99 | replacing a needle by itself changes nothing |
| `PinBump.NoMatch` | xtask/src/bump.rs:88-99 | the count is zero if and only if the text does not contain the needle |
| `PinBump.AtFirst` | xtask/src/bump.rs:88-99 | at the first occurrence of a needle: the count is one more than that of what follows it, and the replacement goes there with what follows replaced in turn |
| `PinBump.AtNone` | xtask/src/bump.rs:88-99 | without an occurrence the count is zero and the text stays as it is |
| `PinBump.EmptyCount` | xtask/src/bump.rs:88-99 | an empty needle is counted before every character and at the end |
| `PinBump.AtEmpty` | xtask/src/bump.rs:88-99 | and replaced there |
| `PinBump.FoldStep` | xtask/src/bump.rs:88-99 | one more substitution on a file: exactly the expected count replaces, any other is an error with both counts; other files stay |
| `PinBump.ErrorStep` | xtask/src/bump.rs:114-134 | one more substitution in a run that goes on after errors: an unreadable file and a wrong count are one error each and change no text |
| `PinBump.NoErrorMeansAllFold` | xtask/src/bump.rs:114-134 | no step fails if and only if every file's own fold succeeds |
| `PinBump.LenientIsFold` | xtask/src/bump.rs:114-134 | as long as nothing fails, the text worked on is the file's fold |
| `PinBump.PathsDistinct` | xtask/src/bump.rs:114-134 | the staged paths are the named files, each once |
| `PinBump.ApplyAll` | xtask/src/bump.rs:114-134 | Ok exactly when folding each file's substitutions over its original contents succeeds, then one write per path equal to that fold; otherwise every error, each judged on the text the earlier steps left |
| `PinBump.CheckChangesNothing` | xtask/src/bump.rs:114-134 | with needle equal to replacement every staged text is the original |
| `WorkerScript.StampValue` | crates/ephpm-php/ephpm_wrapper.c:3137-3140 | the wrapping counter after n increments is n modulo its range |
| `WorkerScript.StaleLooksCurrent` | crates/ephpm-php/ephpm_wrapper.c:3518-3527 | exactly when a stale stamp looks current: after whole turns of the counter |
| `WorkerScript.AccessKeeps` | crates/ephpm-php/ephpm_wrapper.c:3547-3631 | an accessor answers with its own request's array or an empty one, and caching it keeps every envelope faithful |
| `WorkerScript.LedgerTake` | crates/ephpm-php/ephpm_wrapper.c:3098-3140 | taking a request keeps the account of answered, dropped and parked requests, and drops a reply channel still parked |
| `WorkerScript.LedgerAnswer` | crates/ephpm-php/ephpm_wrapper.c:3364-3409 | answering keeps the account |
| `WorkerScript.LedgerSettled` | crates/ephpm-php/ephpm_wrapper.c:3364-3409 | with nothing dropped, the last request taken is the only one that can lack an answer, and the in-flight flag says whether it does, exactly unless a cut stream has used its channel up |
| `WorkerScript.ToldSnoc` | crates/ephpm-php/ephpm_wrapper.c:4008-4174 | call by call, the engine's flags tell whether the script's events bailed out, whether an exit vouches for it, and the last error and status since the last request was taken |
| `WorkerScript.CutMayBeVouched` | crates/ephpm-php/ephpm_wrapper.c:4071-4073 | an orderly script that takes one request, exits, and whose streamed answer is cut short: the bailout passes for the exit and the request is still in flight |
| `Worker.MadeUpForNobody` | crates/ephpm-php/ephpm_wrapper.c:4071-4159 | that script on a fresh worker: its one request has its answer, and a response is made up all the same, which goes to no request |
| `WorkerScript.OrderlySnoc` | crates/ephpm-php/ephpm_wrapper.c:3098-3140 | a script stays orderly by a call exactly if the call does not take a request with one in flight |
| `Worker.Worker.constructor` | crates/ephpm-php/ephpm_wrapper.c:190-200 | a thread before its first request |
| `Worker.Worker.Reset` | crates/ephpm-php/ephpm_wrapper.c:2877-2922 | nothing in flight, no request data behind the accessors, status and last error cleared |
| `Worker.Worker.Arrive` | crates/ephpm-php/ephpm_wrapper.c:3117-3140 | a new request replaces whatever was parked, and the stamp moves on |
| `Worker.Worker.TakeRequest` | crates/ephpm-php/ephpm_wrapper.c:3098-3257 | a request taken is in flight and parked, with an Envelope and its data at hand unless a bailout came between; arrays already built stay as they are |
| `Worker.Worker.HandOut` | crates/ephpm-php/ephpm_wrapper.c:3226-3241 | a new Envelope belongs to the current iteration, has built nothing, and the request's data is behind it |
| `Worker.Worker.AccessField` | crates/ephpm-php/ephpm_wrapper.c:3547-3631 | cached arrays are returned as they are; otherwise the current request's array if the stamp is current, else an empty one; the newest Envelope always gives its own data while they are at hand; within one turn of the counter any Envelope gives its own data or nothing |
| `Worker.Worker.OpenBodyStream` | crates/ephpm-php/ephpm_wrapper.c:2993-3002 | a stream is stamped with the iteration that opens it |
| `Worker.Worker.ReadBodyStream` | crates/ephpm-php/ephpm_wrapper.c:2928-2959 | bytes leave the reader once and in order, only for a stream of the current iteration within one turn of the counter, and as many as are asked for and left |
| `Worker.Worker.Answer` | crates/ephpm-php/ephpm_wrapper.c:3364-3409 | the parked channel gets the script's answer, and the account stays right |
| `Worker.Worker.Deliver` | crates/ephpm-php/src/worker_bridge.rs:1222-1256 | the parked channel gets its answer, the body reader is released and nothing is in flight |
| `Worker.Worker.SendAnswer` | crates/ephpm-php/ephpm_wrapper.c:3422-3499 | a streamed response that never starts, finishes, or is cut short by a bailout after its headers went out |
| `Worker.Worker.LookAt` | crates/ephpm-php/ephpm_wrapper.c:3547-3631 | an accessor called by the script: what it shows, and that everything else stays |
| `Worker.Worker.LookForStream` | crates/ephpm-php/ephpm_wrapper.c:2993-3002 | opening a stream: it belongs to the current iteration, and everything else stays |
| `Worker.Worker.LookInto` | crates/ephpm-php/ephpm_wrapper.c:2928-2959 | a read: what it shows, and that only the body moves on |
| `Worker.Worker.DoSend` | crates/ephpm-php/ephpm_wrapper.c:3364-3409 | a buffered answer, with and without a host that takes it |
| `Worker.Worker.DoStream` | crates/ephpm-php/ephpm_wrapper.c:3422-3499 | a streamed answer, in each of its three ends |
| `Worker.Worker.Happen` | crates/ephpm-php/ephpm_wrapper.c:873-879 | an engine event reaches the flags and nothing else |
| `Worker.Worker.DoTake` | crates/ephpm-php/ephpm_wrapper.c:3098-3257 | taking a request, as the script's account has it |
| `Worker.Worker.DoCall` | crates/ephpm-php/ephpm_wrapper.c:3098-3631 | one call of the script: its whole effect on what is in flight, what waits, what can be looked at and what the engine holds, and what it shows |
| `Worker.Worker.Advance` | crates/ephpm-php/ephpm_wrapper.c:3098-3631 | one more call of a script: what is in flight is what its calls so far say, and an orderly script has dropped nothing |
| `WorkerScript.FollowsSnoc` | crates/ephpm-php/ephpm_wrapper.c:3098-3631 | the account of engine, requests and objects goes on with every call |
| `WorkerScript.LoggedSnoc` | crates/ephpm-php/ephpm_wrapper.c:2928-3631 | so does the log: every call has its entry, and the reads of each body follow on one another |
| `Worker.Worker.GoOn` | crates/ephpm-php/ephpm_wrapper.c:3098-3631 | one more call and its entry in the log |
| `Worker.Worker.Drive` | crates/ephpm-php/ephpm_wrapper.c:3098-3631 | any sequence of calls: the requests taken, what is in flight and what the engine holds are functions of the calls; every call has a log entry with what it had to show; what was observed stays true and isolated; an orderly script drops no request |
| `Worker.Worker.Synthesize` | crates/ephpm-php/ephpm_wrapper.c:4146-4159 | a response made up goes to the parked channel and to no request that has an answer |
| `Worker.Worker.Conclude` | crates/ephpm-php/ephpm_wrapper.c:4074-4163 | status and result of the response made up, after the output buffers were flushed |
| `Worker.Worker.WindUp` | crates/ephpm-php/ephpm_wrapper.c:4071-4170 | what follows the script in each case |
| `Worker.Worker.Settle` | crates/ephpm-php/ephpm_wrapper.c:4071-4170 | the end of a script against the account of its requests: who got the response, if one was made up |
| `WorkerScript.RecordedIsIsolated` | crates/ephpm-php/ephpm_wrapper.c:2941-3631 | what the observations add up to: accessors return their own request's data or nothing, repeated calls agree, and a stream yields bytes of its own request's body only |
| `Worker.Worker.Run` | crates/ephpm-php/ephpm_wrapper.c:4008-4174 | for every script and every trace of engine events: -2 exactly on a jump or a bailout that no exit explains, and then nothing is made up; otherwise a script that answers each request before it takes the next leaves every request with exactly one answer; a response is made up exactly if the last request was still in flight, which means that it has no answer exactly unless its own streamed answer was cut short; the status is 500 exactly if the script set it or a fatal error left the default; served and isolated over the whole run: every call shows what it has to, the newest Envelope its own data, a stream of the request in flight the next bytes of its body without gap or repetition, and no object another request's data |

## Left out

- PS_DESTROY in the serialisability theorems: it gives the lock back before it deletes the blob. It is a step of the protocol, covered by the safety theorems, and `SessionHandler.Handler.PsDestroy`.
- Expiry, eviction and flushing of stored session blobs, and flushing of lock keys: lock keys change by `set_nx`, `del_if_eq` and expiry only.
- `SessionLock`: a thread may give up waiting at any time; the 30 s budget is in `SessionHandler.Handler.Spin`. The branches for a missing store and for a request without a site context do nothing to the lock and are not modelled. The clock is one global clock.
- SessionHandler.Handler.Spin: signals that cut a sleep short are finitely many; under an endless stream of them the loop need not end.
- PHP engine internals (executor, heap, OPcache, INI handlers): `zend_alter_ini_entry` is an accept function, `php_request_startup` either resets modified entries or does not, and phases are traces of frees, bailouts, errors and status changes.
- RequestRun.Thread.RunRequest: the text of the last error is the one flag that tells a timeout from another bailout; output and headers of the response are not modelled there (see HeaderCapture).
- The delayed out-of-memory state of newer PHP releases, stack limits and request-info fields.
- ExecTimer.Thread.Arm: signal disposition and mask are one flag; a failing `timer_settime` is not modelled.
- `rawBody()` and `bodyStream()` on a stale Envelope: neither compares the generation.
- Worker.Worker.AccessField: the array builders (duplicate headers, cookie and query parsing) are an abstract function of field and request.
- Worker.Worker.SendAnswer: a streamed response counts as answered once its headers are out; chunking and back-pressure are not modelled. A bailout out of it, or out of taking a request, ends the script.
- Worker.Worker.Conclude: output callbacks that call worker functions while the buffers are flushed are not modelled.
- CrashGuard: reuse of process ids, and work that jumps out past its guard by itself. A vforked child is modelled only as far as its exit.
- HeaderCapture.Capture.Append: overflow of the doubled capacity is not modelled.
- LineDiff.UnifiedDiff: works on decoded text; the escaping of invalid UTF-8 bytes and the wording of the size message are not modelled.
- PinBump.ApplyAll: errors are values with the same parts as the messages, not their wording.
- Most `ephpm_kv_*`, and all `ephpm_db_*` and `ephpm_ws_*` functions, the Rust side of the bridges, other build logic, CLI handling and the remaining xtask commands: marshalling, I/O or one-branch logic.
