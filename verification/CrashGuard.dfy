/**
  The crash guard: a `sigsetjmp` recovery point per thread, a fault test, and an
  `_exit` wrapper, over every run of nested guards, faults, exits and forks.
 */
module CrashGuard {
  import opened Options
  import opened Words

  // ----- 64-bit addresses

  const WORD := U64_MAX + 1
  const WINDOW := 65536
  const SLACK := 4096
  const HARD_LIMIT_STATUS := 137

  predicate Address(x: int) { 0 <= x < WORD }

  /** Unsigned addition as the machine does it. */
  function Add64(x: int, y: int): int { (x + y) % WORD }

  /** The tests of `ephpm_guard_try_recover` on the address. */
  predicate InGuard(lo: int, addr: int) {
    lo != 0 && !(Add64(addr, WINDOW) < lo) && !(addr > Add64(lo, SLACK))
  }

  /** What they are meant to decide, over the integers. */
  predicate NearLowBound(lo: int, addr: int) { lo - WINDOW <= addr <= lo + SLACK }

  /**
    The wrapped test is the intended one for every address if and only if the
    bound stays a window and a slack away from the top of the address space.
   */
  lemma WindowExact(lo: int)
    requires Address(lo) && lo != 0
    ensures (forall addr | Address(addr) :: InGuard(lo, addr) <==> NearLowBound(lo, addr))
       <==> lo + SLACK + WINDOW < WORD
  {
    if lo + SLACK + WINDOW < WORD {
      forall addr | Address(addr) ensures InGuard(lo, addr) <==> NearLowBound(lo, addr) {
        Wrap(addr, WINDOW);
        Wrap(lo, SLACK);
      }
    } else {
      var addr := if lo + SLACK < WORD then lo + SLACK else lo;
      Wrap(addr, WINDOW);
      Wrap(lo, SLACK);
      assert Address(addr) && NearLowBound(lo, addr) && !InGuard(lo, addr);
    }
  }

  lemma Wrap(x: int, y: int)
    requires Address(x) && 0 <= y < WORD
    ensures Add64(x, y) == if x + y < WORD then x + y else x + y - WORD
  {
  }

  /** Not overflowing at the slack is not enough: an address the test should take but refuses. */
  lemma SlackAloneIsNotEnough()
    ensures exists lo, addr :: Address(lo) && Address(addr) && lo + SLACK < WORD
                            && NearLowBound(lo, addr) && !InGuard(lo, addr)
  {
    var lo := WORD - 8192;
    Wrap(lo, WINDOW);
    Wrap(lo, SLACK);
    assert NearLowBound(lo, lo) && !InGuard(lo, lo);
  }

  // ----- threads and processes

  /** How far an activation of `ephpm_guard_run` has got. */
  datatype Phase =
    | Nested      // inside another guard: runs `work` and nothing else
    | Entered     // bounds and owner recorded
    | Marked      // `sigsetjmp` done
    | Catching    // `g_catch_faults` written
    | Running     // `g_armed` set, inside `work`
    | Disarmed    // `work` returned, `g_armed` cleared

  datatype Frame = Frame(id: nat, phase: Phase, catches: bool, lo: int)

  /**
    The thread-local state of one thread, its activations from the outermost in,
    and how many there have been. `buffer` is the activation whose context
    `g_recover_buf` holds.
   */
  datatype Thread = Thread(
    pid: nat, armed: bool, catchFaults: bool, stackLo: int, buffer: Option<nat>,
    frames: seq<Frame>, calls: nat)

  /** A process: `g_owner_pid` (0 before the first arm), and whether it still runs. */
  datatype Process = Process(owner: nat, alive: bool)

  datatype Code = COMPLETED | STACK_OVERFLOW | HARD_MEMORY_LIMIT

  /** A `siglongjmp`: where it came from, why, where it goes, and the frames then live. */
  datatype Jump = Jump(tid: nat, pid: nat, owner: nat, code: Code, target: Option<nat>, live: seq<Frame>)

  datatype World = World(processes: map<nat, Process>, threads: map<nat, Thread>, jumps: seq<Jump>)

  datatype Event =
    | Call(t: nat, catches: bool, lo: int)
    | SetJmp(t: nat)
    | SetCatch(t: nat)
    | SetArmed(t: nat)
    | WorkReturns(t: nat)
    | Return(t: nat)
    | Fault(t: nat, addr: int)
    | Exit(t: nat, status: int)
    | ChildExit(t: nat, pid: nat, status: int)  // a vfork() child, on the thread's own memory
    | Fork(t: nat, child: nat, pid: nat)

  function Top(th: Thread): Frame
    requires th.frames != []
  {
    th.frames[|th.frames| - 1]
  }

  function SetTop(th: Thread, f: Frame): Thread
    requires th.frames != []
  {
    th.(frames := th.frames[|th.frames| - 1 := f])
  }

  function Pop(th: Thread): Thread
    requires th.frames != []
  {
    th.(frames := th.frames[..|th.frames| - 1])
  }

  /** The thread is outside any guard, or inside the `work` of one. */
  predicate InWork(th: Thread) {
    th.frames == [] || Top(th).phase.Nested? || Top(th).phase.Running?
  }

  predicate AtPhase(th: Thread, p: Phase) {
    th.frames != [] && Top(th).phase == p
  }

  predicate Runs(w: World, t: nat) {
    t in w.threads && w.threads[t].pid in w.processes && w.processes[w.threads[t].pid].alive
  }

  predicate Possible(w: World, e: Event) {
    && Runs(w, e.t)
    && match e
       case Call(t, _, lo) => InWork(w.threads[t]) && Address(lo)
       case SetJmp(t) => AtPhase(w.threads[t], Entered)
       case SetCatch(t) => AtPhase(w.threads[t], Marked)
       case SetArmed(t) => AtPhase(w.threads[t], Catching)
       case WorkReturns(t) => AtPhase(w.threads[t], Nested) || AtPhase(w.threads[t], Running)
       case Return(t) => AtPhase(w.threads[t], Disarmed)
       case Fault(_, addr) => Address(addr)
       case Exit(_, _) => true
       case ChildExit(_, pid, _) => pid != 0 && pid !in w.processes
       case Fork(_, child, pid) => child !in w.threads && pid != 0 && pid !in w.processes
  }

  /** Index of the activation a jump to `target` resumes: the part of the stack below it survives. */
  function Resumes(fs: seq<Frame>, target: Option<nat>): (k: nat)
    ensures k <= |fs|
  {
    if fs == [] then 0
    else if target == Some(fs[|fs| - 1].id) then |fs| - 1
    else Resumes(fs[..|fs| - 1], target)
  }

  /** `siglongjmp` and the code it lands on: unwind, clear both flags, return from the activation. */
  function Land(th: Thread): Thread {
    th.(armed := false, catchFaults := false, frames := th.frames[..Resumes(th.frames, th.buffer)])
  }

  function Kill(w: World, pid: nat): World
    requires pid in w.processes
  {
    w.(processes := w.processes[pid := w.processes[pid].(alive := false)])
  }

  function LongJump(w: World, t: nat, code: Code): World
    requires Runs(w, t)
  {
    var th := w.threads[t];
    w.(threads := w.threads[t := Land(th)],
       jumps := w.jumps + [Jump(t, th.pid, w.processes[th.pid].owner, code, th.buffer, th.frames)])
  }

  /** `ephpm_guard_try_recover` decides to contain the fault. */
  predicate Contains(th: Thread, addr: int) {
    th.armed && th.catchFaults && InGuard(th.stackLo, addr)
  }

  /** `__wrap__exit` decides to contain the exit, called by the process `pid`. */
  predicate Intercepts(th: Thread, owner: nat, pid: nat, status: int) {
    status == HARD_LIMIT_STATUS && th.armed && owner != 0 && owner == pid
  }

  function Step(w: World, e: Event): World
    requires Possible(w, e)
  {
    var th := w.threads[e.t];
    match e
    case Call(t, catches, lo) =>
      if th.armed then
        w.(threads := w.threads[t := th.(frames := th.frames + [Frame(th.calls, Nested, catches, lo)], calls := th.calls + 1)])
      else
        var lo' := if catches then lo else 0;
        var p := w.processes[th.pid];
        w.(threads := w.threads[t := th.(stackLo := lo', calls := th.calls + 1,
                                         frames := th.frames + [Frame(th.calls, Entered, catches, lo')])],
           processes := w.processes[th.pid := if p.owner == 0 then p.(owner := th.pid) else p])
    case SetJmp(t) =>
      w.(threads := w.threads[t := SetTop(th, Top(th).(phase := Marked)).(buffer := Some(Top(th).id))])
    case SetCatch(t) =>
      w.(threads := w.threads[t := SetTop(th, Top(th).(phase := Catching)).(catchFaults := Top(th).catches)])
    case SetArmed(t) =>
      w.(threads := w.threads[t := SetTop(th, Top(th).(phase := Running)).(armed := true)])
    case WorkReturns(t) =>
      if Top(th).phase.Nested? then w.(threads := w.threads[t := Pop(th)])
      else w.(threads := w.threads[t := SetTop(th, Top(th).(phase := Disarmed)).(armed := false)])
    case Return(t) => w.(threads := w.threads[t := Pop(th).(catchFaults := false)])
    case Fault(t, addr) => if Contains(th, addr) then LongJump(w, t, STACK_OVERFLOW) else Kill(w, th.pid)
    case Exit(t, status) =>
      if Intercepts(th, w.processes[th.pid].owner, th.pid, status) then LongJump(w, t, HARD_MEMORY_LIMIT)
      else Kill(w, th.pid)
    case ChildExit(t, pid, status) =>
      if Intercepts(th, w.processes[th.pid].owner, pid, status) then LongJump(w, t, HARD_MEMORY_LIMIT) else w
    case Fork(t, child, pid) =>
      w.(threads := w.threads[child := th.(pid := pid)],
         processes := w.processes[pid := Process(w.processes[th.pid].owner, true)])
  }

  // ----- the invariant of a thread

  predicate Quiet(th: Thread) { !th.armed && !th.catchFaults }

  /** Only the outermost activation arms; it owns the recovery buffer from `sigsetjmp` on. */
  predicate Ordered(th: Thread) {
    && (th.frames == [] ==> Quiet(th))
    && (th.frames != [] ==>
          var f := th.frames[0];
          && !f.phase.Nested?
          && (th.armed <==> f.phase.Running?)
          && (|th.frames| > 1 ==> f.phase.Running?)
          && (!f.phase.Entered? ==> th.buffer == Some(f.id))
          && (th.catchFaults ==> f.catches && (f.phase.Catching? || f.phase.Running? || f.phase.Disarmed?))
          && (f.phase.Catching? || f.phase.Running? ==> th.catchFaults == f.catches)
          && f.id < th.calls && th.stackLo == f.lo)
    && (forall i | 0 < i < |th.frames| :: th.frames[i].phase.Nested? && th.frames[0].id < th.frames[i].id < th.calls)
  }

  predicate Owned(w: World, t: nat)
    requires t in w.threads
  {
    w.threads[t].pid in w.processes && (w.threads[t].frames != [] ==> w.processes[w.threads[t].pid].owner != 0)
  }

  /** Owners are real processes, and the process of a thread inside a guard has one. */
  ghost predicate Inv(w: World) {
    && 0 !in w.processes
    && (forall t <- w.threads :: Ordered(w.threads[t]) && Owned(w, t))
    && (forall p <- w.processes :: w.processes[p].owner == 0 || w.processes[p].owner in w.processes)
  }

  lemma {:induction false} ResumesOutermost(fs: seq<Frame>, id: nat)
    requires fs != [] && fs[0].id == id && forall i | 0 < i < |fs| :: fs[i].id != id
    ensures Resumes(fs, Some(id)) == 0
  {
    if |fs| > 1 {
      ResumesOutermost(fs[..|fs| - 1], id);
    }
  }

  /** A jump leaves the whole guard: no activation is left, and both flags are clear. */
  lemma LandsOutside(th: Thread)
    requires Ordered(th) && th.armed
    ensures th.frames != [] && th.buffer == Some(th.frames[0].id)
    ensures Land(th).frames == [] && Quiet(Land(th)) && Ordered(Land(th))
  {
    ResumesOutermost(th.frames, th.frames[0].id);
  }

  lemma ThreadStep(w: World, e: Event)
    requires Inv(w) && Possible(w, e)
    ensures e.t in Step(w, e).threads && Ordered(Step(w, e).threads[e.t])
  {
    var th := w.threads[e.t];
    if th.armed { LandsOutside(th); }
  }

  /** A step leaves the other threads alone, except that a fork copies its own. */
  lemma OthersStep(w: World, e: Event, t: nat)
    requires Possible(w, e) && t in Step(w, e).threads && t != e.t
    ensures if e.Fork? && t == e.child then Step(w, e).threads[t] == w.threads[e.t].(pid := e.pid)
            else t in w.threads && Step(w, e).threads[t] == w.threads[t]
  {
  }

  lemma PidKept(w: World, e: Event)
    requires Possible(w, e)
    ensures e.t in Step(w, e).threads && Step(w, e).threads[e.t].pid == w.threads[e.t].pid
    ensures w.processes.Keys <= Step(w, e).processes.Keys
    ensures e.Fork? ==> e.pid in Step(w, e).processes
  {
  }

  lemma OwnersStep(w: World, e: Event, p: nat)
    requires Inv(w) && Possible(w, e) && p in Step(w, e).processes
    ensures p != 0
    ensures Step(w, e).processes[p].owner == 0 || Step(w, e).processes[p].owner in Step(w, e).processes
  {
  }

  /** The owner of a process is set once: to itself, if it is not a copy of one that had an owner. */
  lemma OwnerStep(w: World, e: Event, p: nat)
    requires Possible(w, e) && p in w.processes
    ensures p in Step(w, e).processes
    ensures w.processes[p].owner != 0 ==> Step(w, e).processes[p].owner == w.processes[p].owner
    ensures Step(w, e).processes[p].owner != w.processes[p].owner ==> Step(w, e).processes[p].owner == p
  {
  }

  lemma OwnedStep(w: World, e: Event, t: nat)
    requires Inv(w) && Possible(w, e) && t in Step(w, e).threads
    ensures Owned(Step(w, e), t)
  {
    PidKept(w, e);
    if t == e.t {
      OwnerStep(w, e, w.threads[t].pid);
    } else {
      OthersStep(w, e, t);
      if t in w.threads { OwnerStep(w, e, w.threads[t].pid); }
    }
  }

  lemma InvStep(w: World, e: Event)
    requires Inv(w) && Possible(w, e)
    ensures Inv(Step(w, e))
  {
    var w' := Step(w, e);
    forall t <- w'.threads ensures Ordered(w'.threads[t]) && Owned(w', t) {
      OwnedStep(w, e, t);
      if t == e.t {
        ThreadStep(w, e);
      } else {
        OthersStep(w, e, t);
      }
    }
    forall p <- w'.processes ensures p != 0 && (w'.processes[p].owner == 0 || w'.processes[p].owner in w'.processes) {
      OwnersStep(w, e, p);
    }
  }

  predicate ValidRun(w: World, es: seq<Event>)
    decreases |es|
  {
    es == [] || (Possible(w, es[0]) && ValidRun(Step(w, es[0]), es[1..]))
  }

  function Exec(w: World, es: seq<Event>): World
    requires ValidRun(w, es)
    decreases |es|
  {
    if es == [] then w else Exec(Step(w, es[0]), es[1..])
  }

  // ----- what every run guarantees

  /** The jump's target is an activation that was live on that thread and past its `sigsetjmp`. */
  predicate LandsLive(j: Jump) {
    exists i | 0 <= i < |j.live| :: j.target == Some(j.live[i].id) && j.live[i].phase.Running?
  }

  /** A contained exit happened in the process that armed the guard; a contained fault was asked for. */
  predicate Justified(j: Jump) {
    && LandsLive(j)
    && (j.code == HARD_MEMORY_LIMIT ==> j.pid == j.owner)
    && (j.code == STACK_OVERFLOW ==> j.live != [] && j.live[0].catches && j.live[0].lo != 0)
    && j.code != COMPLETED
  }

  lemma JumpsStep(w: World, e: Event)
    requires Inv(w) && Possible(w, e)
    ensures w.jumps <= Step(w, e).jumps
    ensures forall j <- Step(w, e).jumps[|w.jumps|..] :: Justified(j)
  {
    var th := w.threads[e.t];
    if th.armed {
      LandsOutside(th);
      assert th.frames[0].phase.Running?;
    }
  }

  /** A world in which no guard was entered yet. */
  predicate Fresh(w: World) {
    && 0 !in w.processes && w.jumps == []
    && (forall p <- w.processes :: w.processes[p].owner == 0)
    && (forall t <- w.threads :: w.threads[t].frames == [] && Quiet(w.threads[t]) && w.threads[t].pid in w.processes)
  }

  lemma {:induction false} JumpsOfRun(w: World, es: seq<Event>)
    requires Inv(w) && ValidRun(w, es) && forall j <- w.jumps :: Justified(j)
    ensures Inv(Exec(w, es)) && forall j <- Exec(w, es).jumps :: Justified(j)
    decreases |es|
  {
    if es != [] {
      InvStep(w, es[0]);
      JumpsStep(w, es[0]);
      var w' := Step(w, es[0]);
      forall j <- w'.jumps ensures Justified(j) {
        var i :| 0 <= i < |w'.jumps| && w'.jumps[i] == j;
        assert i < |w.jumps| ==> j == w.jumps[i];
        assert i >= |w.jumps| ==> j == w'.jumps[|w.jumps|..][i - |w.jumps|];
      }
      JumpsOfRun(w', es[1..]);
    }
  }

  /** Every `siglongjmp` of every run lands in a live activation, and a thread outside all guards is quiet. */
  lemma EveryJumpIsSafe(w: World, es: seq<Event>)
    requires Fresh(w) && ValidRun(w, es)
    ensures forall j <- Exec(w, es).jumps :: Justified(j)
    ensures forall t <- Exec(w, es).threads | Exec(w, es).threads[t].frames == [] :: Quiet(Exec(w, es).threads[t])
  {
    JumpsOfRun(w, es);
  }

  /** The thread is inside the work of a guard. */
  predicate Guarded(th: Thread) { th.frames != [] && th.frames[0].phase.Running? }

  /** A fault is contained exactly inside guarded work that asked for it and near its low bound; any other ends the process. */
  lemma FaultOutcome(w: World, t: nat, addr: int)
    requires Inv(w) && Possible(w, Fault(t, addr))
    ensures var th, w' := w.threads[t], Step(w, Fault(t, addr));
            if Guarded(th) && th.frames[0].catches && InGuard(th.frames[0].lo, addr) then
              && w'.threads[t].frames == [] && w'.processes == w.processes
              && |w'.jumps| == |w.jumps| + 1 && w'.jumps[|w.jumps|].code == STACK_OVERFLOW
              && w'.jumps[|w.jumps|].target == Some(th.frames[0].id)
            else
              !w'.processes[th.pid].alive && w'.jumps == w.jumps
  {
    var th := w.threads[t];
    if th.armed { LandsOutside(th); }
  }

  /** An exit is contained exactly inside guarded work, with the hard limit's status, in the process that armed first. */
  lemma ExitOutcome(w: World, t: nat, status: int)
    requires Inv(w) && Possible(w, Exit(t, status))
    ensures var th, w' := w.threads[t], Step(w, Exit(t, status));
            if Guarded(th) && status == 137 && w.processes[th.pid].owner == th.pid then
              && w'.threads[t].frames == [] && w'.processes == w.processes
              && |w'.jumps| == |w.jumps| + 1 && w'.jumps[|w.jumps|].code == HARD_MEMORY_LIMIT
              && w'.jumps[|w.jumps|].target == Some(th.frames[0].id)
            else
              !w'.processes[th.pid].alive && w'.jumps == w.jumps
  {
    var th := w.threads[t];
    if th.armed { LandsOutside(th); }
  }

  /** Over every run, a process keeps the owner it has, and one that had none can only come to own itself. */
  lemma {:induction false} OwnerForever(w: World, es: seq<Event>, p: nat)
    requires ValidRun(w, es) && p in w.processes
    ensures p in Exec(w, es).processes
    ensures var o, o' := w.processes[p].owner, Exec(w, es).processes[p].owner; if o != 0 then o' == o else o' == 0 || o' == p
    decreases |es|
  {
    if es != [] {
      OwnerStep(w, es[0], p);
      OwnerForever(Step(w, es[0]), es[1..], p);
    }
  }

  /** A process that was there before any guard contains every hard-limit exit inside guarded work. */
  lemma HardLimitContained(w: World, es: seq<Event>, t: nat)
    requires Fresh(w) && ValidRun(w, es) && Runs(Exec(w, es), t)
    requires Guarded(Exec(w, es).threads[t]) && Exec(w, es).threads[t].pid in w.processes
    ensures var w' := Step(Exec(w, es), Exit(t, 137));
            w'.processes == Exec(w, es).processes && w'.threads[t].frames == [] && |w'.jumps| == |Exec(w, es).jumps| + 1
  {
    JumpsOfRun(w, es);
    OwnerForever(w, es, Exec(w, es).threads[t].pid);
    assert Owned(Exec(w, es), t);
    ExitOutcome(Exec(w, es), t, 137);
  }

  /** A child forked from a process that had armed a guard: whatever it does afterwards, its exit is a real exit. */
  lemma ForkedChildExits(w: World, fork: Event, es: seq<Event>, t: nat, status: int)
    requires Inv(w) && fork.Fork? && Possible(w, fork) && w.processes[w.threads[fork.t].pid].owner != 0
    requires ValidRun(Step(w, fork), es) && Runs(Exec(Step(w, fork), es), t)
    requires Exec(Step(w, fork), es).threads[t].pid == fork.pid
    ensures var w1 := Exec(Step(w, fork), es);
            Step(w1, Exit(t, status)).jumps == w1.jumps && !Step(w1, Exit(t, status)).processes[fork.pid].alive
  {
    PidKept(w, fork);
    OwnerForever(Step(w, fork), es, fork.pid);
  }

  /** A child, forked or vforked, never jumps into its parent's request: its exit is a real exit. */
  lemma ChildrenExit(w: World, e: Event)
    requires Inv(w) && Possible(w, e)
    requires e.ChildExit? || (e.Exit? && w.processes[w.threads[e.t].pid].owner != w.threads[e.t].pid)
    ensures Step(w, e).jumps == w.jumps && Step(w, e).threads == w.threads
    ensures e.Exit? ==> !Step(w, e).processes[w.threads[e.t].pid].alive
  {
  }
}
