/** `ephpm_guard_run` as the code runs it, on one thread, with guards nested in the guarded work. */
module GuardedRun {
  import opened CrashGuard
  import opened Options

  /** What guarded work does that matters here: enter another guard, fault, or call `_exit`. */
  datatype Action =
    | Guarded(work: seq<Action>, catches: bool, lo: int)
    | Faults(addr: int)
    | Exits(status: int)

  /** How a piece of work ends: it returns, a jump is on its way to an activation, or the process is gone. */
  datatype End = Returned(code: Code) | Unwinding(target: nat, code: Code) | Died

  /** The first fault or exit the work reaches, whichever guards it is nested in. */
  function FirstTrouble(work: seq<Action>): Option<Action> {
    if work == [] then None
    else
      var first := match work[0] case Guarded(inner, _, _) => FirstTrouble(inner) case a => Some(a);
      if first.Some? then first else FirstTrouble(work[1..])
  }

  /** What an outermost guard has to answer. */
  function Verdict(work: seq<Action>, catches: bool, lo: int, owner: nat, pid: nat): End {
    match FirstTrouble(work)
    case None => Returned(COMPLETED)
    case Some(Faults(addr)) => if catches && InGuard(lo, addr) then Returned(STACK_OVERFLOW) else Died
    case Some(Exits(status)) => if status == HARD_LIMIT_STATUS && owner == pid then Returned(HARD_MEMORY_LIMIT) else Died
    case Some(Guarded(_, _, _)) => Died
  }

  /** What the end amounts to once the jump has landed. */
  function Settled(end: End): End {
    if end.Unwinding? then Returned(end.code) else end
  }

  class Guard {
    const pid: nat
    var armed: bool
    var catchFaults: bool
    var stackLo: int
    var buffer: nat
    var owner: nat
    var calls: nat

    constructor (pid: nat)
      requires pid != 0
      ensures this.pid == pid && !armed && !catchFaults && owner == 0
    {
      this.pid := pid;
      armed, catchFaults, stackLo, buffer, owner, calls := false, false, 0, 0, 0, 0;
    }

    /** `ephpm_guard_try_recover`: contained, or the handler goes on to die. */
    method TryRecover(addr: int) returns (end: End)
      modifies this`armed
      ensures end == if old(armed) && catchFaults && InGuard(stackLo, addr)
                     then Unwinding(buffer, STACK_OVERFLOW) else Died
      ensures armed == (end.Died? && old(armed))
    {
      if !armed || !catchFaults {
        return Died;
      }
      if stackLo == 0 {
        return Died;
      }
      if Add64(addr, WINDOW) < stackLo {
        return Died;
      }
      if addr > Add64(stackLo, SLACK) {
        return Died;
      }
      armed := false;
      end := Unwinding(buffer, STACK_OVERFLOW);
    }

    /** `__wrap__exit`: contained, or a real exit. */
    method WrapExit(status: int) returns (end: End)
      modifies this`armed, this`catchFaults
      ensures end == if status == HARD_LIMIT_STATUS && old(armed) && owner != 0 && owner == pid
                     then Unwinding(buffer, HARD_MEMORY_LIMIT) else Died
      ensures armed == (end.Died? && old(armed)) && catchFaults == (end.Died? && old(catchFaults))
    {
      if status == HARD_LIMIT_STATUS && armed {
        if owner != 0 && owner == pid {
          armed := false;
          catchFaults := false;
          return Unwinding(buffer, HARD_MEMORY_LIMIT);
        }
      }
      end := Died;
    }

    /** The guarded work, inside an armed region. */
    method Work(work: seq<Action>) returns (end: End)
      requires armed && owner != 0 && pid != 0
      modifies this
      ensures owner == old(owner)
      ensures FirstTrouble(work) == None ==> end == Returned(COMPLETED)
      ensures end.Returned? ==> FirstTrouble(work) == None && armed && catchFaults == old(catchFaults)
      ensures end.Returned? || end.Unwinding? ==> buffer == old(buffer) && stackLo == old(stackLo)
      ensures end.Unwinding? ==> end.target == old(buffer) && FirstTrouble(work).Some?
      ensures Settled(end) == Verdict(work, old(catchFaults), old(stackLo), owner, pid)
      decreases work, 0
    {
      for i := 0 to |work|
        invariant armed && owner == old(owner) && buffer == old(buffer)
        invariant stackLo == old(stackLo) && catchFaults == old(catchFaults)
        invariant FirstTrouble(work[i..]) == FirstTrouble(work)
      {
        assert work[i..][1..] == work[i + 1..] && work[i..][0] == work[i];
        match work[i] {
          case Guarded(inner, catches, lo) => end := Run(inner, catches, lo);
          case Faults(addr) => end := TryRecover(addr);
          case Exits(status) => end := WrapExit(status);
        }
        if !end.Returned? {
          return;
        }
      }
      assert work[|work|..] == [];
      end := Returned(COMPLETED);
    }

    /**
      `ephpm_guard_run`. An outermost call always comes back itself, with the
      code of the first fault or exit and both flags clear, unless the process
      died; a nested call arms nothing and lets a jump pass.
     */
    method Run(work: seq<Action>, catches: bool, lo: int) returns (end: End)
      requires pid != 0 && (armed ==> owner != 0)
      modifies this
      ensures old(armed) || old(owner) != 0 ==> owner == old(owner)
      ensures !old(armed) && old(owner) == 0 ==> owner == pid
      ensures !old(armed) ==> end == Verdict(work, catches, if catches then lo else 0, owner, pid)
      ensures !old(armed) && FirstTrouble(work) == None ==> end == Returned(COMPLETED)
      ensures !old(armed) && FirstTrouble(work).Some? && FirstTrouble(work).value.Faults? ==>
                end == if catches && InGuard(lo, FirstTrouble(work).value.addr) then Returned(STACK_OVERFLOW) else Died
      ensures !old(armed) && FirstTrouble(work).Some? && FirstTrouble(work).value.Exits? ==>
                end == if FirstTrouble(work).value.status == 137 && owner == pid then Returned(HARD_MEMORY_LIMIT) else Died
      ensures !old(armed) && end.Returned? ==> !armed && !catchFaults && stackLo == if catches then lo else 0
      ensures old(armed) && end.Returned? ==> FirstTrouble(work) == None && armed && catchFaults == old(catchFaults)
      ensures old(armed) && !end.Died? ==> buffer == old(buffer) && stackLo == old(stackLo)
      ensures old(armed) && end.Unwinding? ==> end.target == old(buffer) && FirstTrouble(work).Some?
      ensures old(armed) ==> Settled(end) == Verdict(work, old(catchFaults), old(stackLo), owner, pid)
      decreases work, 1
    {
      if armed {
        end := Work(work);
        return;
      }
      stackLo := if catches then lo else 0;
      if owner == 0 {
        owner := pid;
      }
      calls := calls + 1;
      var me := calls;
      buffer := me;
      catchFaults := catches;
      armed := true;
      end := Work(work);
      match end {
        case Died =>
        case Returned(_) =>
          armed := false;
          catchFaults := false;
        case Unwinding(target, code) =>
          assert target == me;
          armed := false;
          catchFaults := false;
          end := Returned(code);
      }
    }
  }
}
