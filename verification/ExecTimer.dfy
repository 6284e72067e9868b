/** Arming PHP's per-thread execution timer for each request. */
module ExecTimer {
  import opened Decimals
  import opened Options

  /** A running countdown: how many seconds it was started with, and when. */
  datatype Countdown = Countdown(seconds: int, started: nat)

  /**
    The engine's side: `EG(timeout_seconds)`, the one POSIX timer of the thread,
    `EG(timed_out)`, the TIMEOUT bit of `PG(connection_status)`, the text of the
    `max_execution_time` entry, if there is one, and whether the thread can
    receive the timer's signal.
   */
  datatype Engine = Engine(
    now: nat, timeoutSeconds: int, timer: Option<Countdown>,
    timedOut: bool, connectionTimeout: bool, entry: Option<string>, signals: bool)

  // ----- engine operations

  /** `zend_set_timeout`; resetting installs the signal handler and unblocks the signal. */
  function SetTimeout(g: Engine, seconds: int, resetSignals: bool): Engine {
    g.(timeoutSeconds := seconds, timedOut := false, signals := g.signals || resetSignals,
       timer := if seconds > 0 then Some(Countdown(seconds, g.now)) else g.timer)
  }

  function UnsetTimeout(g: Engine): Engine {
    g.(timer := if g.timeoutSeconds != 0 then None else g.timer, timedOut := false)
  }

  /** Changing the entry at run time: its handler disarms, stores the value, and arms again. */
  function AlterEntry(g: Engine, text: string, value: int): Engine {
    SetTimeout(UnsetTimeout(g), value, false).(entry := Some(text))
  }

  /** Restoring the entry at request shutdown: disarms and does not arm again. */
  function RestoreEntry(g: Engine, text: string, value: int): Engine {
    UnsetTimeout(g).(timeoutSeconds := value, entry := Some(text))
  }

  /** Whatever happens to the timer between two arms. */
  datatype Event =
    | Elapse(ms: nat)
    | Expire(hard: int, pending: bool)          // fires; may start the hard limit's countdown
    | UserLimit(text: string, value: int)       // set_time_limit(), ini_set()
    | Shutdown(text: string, value: int)
    | Disarm                                    // idle, boot section, end of loop
    | ArmAgain(secs: int, lands: bool)

  predicate Possible(g: Engine, e: Event) {
    e.Expire? ==> g.timer.Some?
  }

  function Happen(g: Engine, e: Event): Engine {
    match e
    case Elapse(ms) => g.(now := g.now + ms)
    case Expire(hard, pending) =>
      g.(timer := if hard > 0 then Some(Countdown(hard, g.now)) else None,
         timedOut := pending, connectionTimeout := true)
    case UserLimit(text, value) => AlterEntry(g, text, value)
    case Shutdown(text, value) => RestoreEntry(g, text, value)
    case Disarm => UnsetTimeout(g)
    case ArmAgain(secs, lands) => Armed(g, secs, lands)
  }

  // ----- what arming is for

  /**
    After an arm: one fresh countdown of `secs`, or none when `secs` is not
    positive, a signal that reaches the thread, nothing pending, and the entry
    shows `secs` unless it differed and its alteration failed.
   */
  function Armed(g: Engine, secs: int, lands: bool): Engine {
    g.(timeoutSeconds := secs,
       timer := if secs > 0 then Some(Countdown(secs, g.now)) else None,
       timedOut := false, connectionTimeout := false, signals := true,
       entry := if g.entry.Some? && lands then Some(Signed(secs)) else g.entry)
  }

  /** The fact the zero case leans on: the timer only runs while a limit is recorded. */
  predicate Consistent(g: Engine) {
    g.timer.Some? ==> g.timeoutSeconds > 0
  }

  ghost predicate PossibleRun(g: Engine, es: seq<Event>)
    decreases |es|
  {
    es == [] || (Possible(g, es[0]) && PossibleRun(Happen(g, es[0]), es[1..]))
  }

  function After(g: Engine, es: seq<Event>): Engine
    decreases |es|
  {
    if es == [] then g else After(Happen(g, es[0]), es[1..])
  }

  /** No history of limits, expiries, disarms and arms breaks it, or takes the signal away. */
  lemma {:induction false} ConsistentForever(g: Engine, es: seq<Event>)
    requires Consistent(g) && PossibleRun(g, es)
    ensures Consistent(After(g, es)) && (g.signals ==> After(g, es).signals)
    decreases |es|
  {
    if es != [] {
      ConsistentForever(Happen(g, es[0]), es[1..]);
    }
  }

  class Thread {
    /** The limit configured for the process. */
    const configured: int
    var engine: Engine
    var signalsInstalled: bool
    /** How many times this thread's arms called `timer_settime`. */
    var settimes: nat

    predicate Valid()
      reads this
    {
      Consistent(engine) && (signalsInstalled ==> engine.signals)
    }

    constructor (configured: int, engine: Engine)
      requires Consistent(engine)
      ensures this.configured == configured && this.engine == engine && !signalsInstalled && Valid()
    {
      this.configured, this.engine, signalsInstalled, settimes := configured, engine, false, 0;
    }

    /** `zend_set_timeout`, at the cost of a `timer_settime` for a positive limit. */
    method Set(seconds: int, resetSignals: bool)
      modifies this`engine, this`settimes
      ensures engine == SetTimeout(old(engine), seconds, resetSignals)
      ensures settimes == old(settimes) + if seconds > 0 then 1 else 0
    {
      engine := SetTimeout(engine, seconds, resetSignals);
      settimes := settimes + if seconds > 0 then 1 else 0;
    }

    /** `zend_unset_timeout`, which costs nothing while no limit is recorded. */
    method Unset()
      modifies this`engine, this`settimes
      ensures engine == UnsetTimeout(old(engine))
      ensures settimes == old(settimes) + if old(engine).timeoutSeconds != 0 then 1 else 0
    {
      settimes := settimes + if engine.timeoutSeconds != 0 then 1 else 0;
      engine := UnsetTimeout(engine);
    }

    /** `zend_alter_ini_entry` on `max_execution_time`. */
    method Alter(text: string, value: int)
      modifies this`engine, this`settimes
      ensures engine == AlterEntry(old(engine), text, value)
    {
      Unset();
      Set(value, false);
      engine := engine.(entry := Some(text));
    }

    /** `ephpm_arm_exec_timer`; `lands` says whether altering the entry succeeds. */
    method Arm(lands: bool)
      requires Valid()
      modifies this
      ensures engine == Armed(old(engine), configured, lands || old(engine).entry == Some(Signed(configured)))
      ensures Valid() && signalsInstalled
      // on the hot path, where the entry is current, one timer_settime
      ensures old(signalsInstalled) && old(engine).entry == Some(Signed(configured)) ==>
                settimes == old(settimes) + if configured > 0 || old(engine).timeoutSeconds != 0 then 1 else 0
    {
      var secs := configured;
      var resetSignals := !signalsInstalled;
      var armed := false;

      var text := Signed(secs);
      if engine.entry != Some(text) {
        var ok := engine.entry.Some? && lands;
        if ok {
          Alter(text, secs);
        }
        armed := ok && engine.timeoutSeconds == secs;
      }

      if !armed || resetSignals {
        if secs <= 0 {
          Unset();
        }
        Set(secs, resetSignals);
      }
      signalsInstalled := true;
      engine := engine.(connectionTimeout := false);
    }

    /** Whatever went before, the next arm starts from a clean slate. */
    method LiveThenArm(es: seq<Event>, lands: bool)
      requires Valid() && PossibleRun(engine, es)
      modifies this
      ensures engine.timer == if configured > 0 then Some(Countdown(configured, engine.now)) else None
      ensures !engine.timedOut && !engine.connectionTimeout && engine.timeoutSeconds == configured
      ensures lands && engine.entry.Some? ==> SignedValue(engine.entry.value) == configured
      ensures !lands ==> engine.entry == After(old(engine), es).entry
      ensures engine.signals && Valid()
    {
      ConsistentForever(engine, es);
      ValueOfSigned(configured);
      engine := After(engine, es);
      Arm(lands);
    }
  }
}
