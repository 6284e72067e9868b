/** `ephpm_run_request`: middleware chain, application script, shutdown functions, final flush. */
module RequestRun {
  import opened Bailout

  datatype Outcome = CONTINUE | RESPOND | FATAL

  datatype Result = OK | SCRIPT_EXIT | BAILOUT | TIMEOUT

  /** How a mount leaves the chain: it returns with an outcome, or a bailout jumps out of it. */
  datatype MountEnd = Returns(outcome: Outcome) | Jumps

  datatype Mount = Mount(trace: Trace, end: MountEnd)

  /** The script ends with or without an unwind exit pending, or a bailout jumps past it. */
  datatype ScriptEnd = Finishes(exited: bool) | Escapes

  datatype Script = Script(trace: Trace, end: ScriptEnd)

  /** A jump is the end of a bailout. */
  predicate Plausible(m: Mount) {
    m.end.Jumps? ==> m.trace != [] && m.trace[|m.trace| - 1].Bail?
  }

  predicate PlausibleScript(p: Script) {
    p.end.Escapes? ==> p.trace != [] && p.trace[|p.trace| - 1].Bail?
  }

  // ----- when a chain lets the application run, without mentioning the loop

  /** All events of the mounts, in order. */
  function Traces(ms: seq<Mount>): Trace
    decreases |ms|
  {
    if ms == [] then [] else Traces(ms[..|ms| - 1]) + ms[|ms| - 1].trace
  }

  /** Mount `i` continued, and nothing up to its end was a bailout or left a fatal error. */
  predicate Continued(ms: seq<Mount>, i: nat)
    requires i < |ms|
  {
    && ms[i].end == Returns(CONTINUE)
    && !Bails(Traces(ms[..i + 1]))
    && !FatalAfter(false, Traces(ms[..i + 1]))
  }

  predicate AllContinued(ms: seq<Mount>) {
    forall i: nat | i < |ms| :: Continued(ms, i)
  }

  /** How many mounts run: up to and including the first that does not continue. */
  function Started(ms: seq<Mount>, from: nat): (k: nat)
    requires from <= |ms|
    ensures from <= k <= |ms|
    ensures forall i: nat | from <= i < k - 1 :: Continued(ms, i)
    ensures k < |ms| ==> k > from && !Continued(ms, k - 1)
    decreases |ms| - from
  {
    if from == |ms| then from
    else if !Continued(ms, from) then from + 1
    else Started(ms, from + 1)
  }

  /** A mount that returned but may not let the chain go on. */
  function StopOutcome(m: Mount): Outcome
    requires m.end.Returns?
  {
    if m.end.outcome == CONTINUE then FATAL else m.end.outcome
  }

  /** What the chain as a whole decided. */
  function ChainOutcome(ms: seq<Mount>): Outcome {
    var k := Started(ms, 0);
    if AllContinued(ms) || k == 0 then CONTINUE
    else if ms[k - 1].end.Returns? then StopOutcome(ms[k - 1])
    else if Vouches(Traces(ms[..k])) then RESPOND else FATAL
  }

  /** The request ended because something asked it to. */
  predicate Exited(st: State, ms: seq<Mount>, app: Script) {
    st == EXIT || ChainOutcome(ms) == RESPOND || (AllContinued(ms) && app.end == Finishes(true))
  }

  /** The status delivered: 500 after a real bailout, and for a fatal error that left the default in place. */
  function Response(st: State, g: Engine): int {
    if st == GENUINE || (g.lastFatal && g.status == 200) then 500 else g.status
  }

  predicate UpTo(xs: seq<nat>, k: nat) {
    |xs| == k && forall i: nat | i < k :: xs[i] == i
  }

  /** The events of the first phase: the mounts that ran, then the script if it ran. */
  function PhaseOne(ms: seq<Mount>, app: Script): Trace {
    Traces(ms[..Started(ms, 0)]) + if AllContinued(ms) then app.trace else []
  }

  lemma {:induction false} TracesSnoc(ms: seq<Mount>, i: nat)
    requires i < |ms|
    ensures Traces(ms[..i + 1]) == Traces(ms[..i]) + ms[i].trace
  {
    assert ms[..i + 1][..i] == ms[..i];
  }

  lemma StartedIs(ms: seq<Mount>, k: nat)
    requires k <= |ms| && (forall i: nat | i < k :: Continued(ms, i))
    ensures k < |ms| && !Continued(ms, k) ==> Started(ms, 0) == k + 1 && !AllContinued(ms)
    ensures k == |ms| ==> Started(ms, 0) == k && AllContinued(ms)
  {
    StartedFrom(ms, 0, k);
  }

  lemma {:induction false} StartedFrom(ms: seq<Mount>, from: nat, k: nat)
    requires from <= k <= |ms| && (forall i: nat | from <= i < k :: Continued(ms, i))
    ensures Started(ms, from) == Started(ms, k)
    decreases k - from
  {
    if from < k {
      StartedFrom(ms, from + 1, k);
    }
  }

  /** A mount that does not continue stops everything after it. */
  lemma FailsClosed(ms: seq<Mount>, i: nat)
    requires i < |ms| && !Continued(ms, i)
    ensures !AllContinued(ms) && Started(ms, 0) <= i + 1
    ensures ChainOutcome(ms) != CONTINUE
  {
    var k := Started(ms, 0);
    assert k - 1 <= i;
    if k == |ms| {
      assert k == i + 1;
    }
  }

  lemma {:induction false} TracesPrefix(ms: seq<Mount>, i: nat)
    requires i <= |ms|
    ensures Traces(ms[..i]) <= Traces(ms)
    decreases |ms|
  {
    if i < |ms| {
      var n := |ms| - 1;
      TracesPrefix(ms[..n], i);
      assert ms[..n][..i] == ms[..i];
    } else {
      assert ms[..i] == ms;
    }
  }

  /** When the application may run, outright: every mount says so, none bails out, and no fatal error stands after any of them. */
  lemma AllContinuedIs(ms: seq<Mount>)
    ensures AllContinued(ms) <==>
            && (forall i | 0 <= i < |ms| :: ms[i].end == Returns(CONTINUE))
            && !Bails(Traces(ms))
            && (forall k | 0 < k <= |ms| :: !FatalAfter(false, Traces(ms[..k])))
  {
    if ms == [] {
    } else if AllContinued(ms) {
      assert Continued(ms, |ms| - 1) && ms[..|ms|] == ms;
      forall i | 0 <= i < |ms| ensures ms[i].end == Returns(CONTINUE) { assert Continued(ms, i); }
      forall k | 0 < k <= |ms| ensures !FatalAfter(false, Traces(ms[..k])) { assert Continued(ms, k - 1); }
    } else if !Bails(Traces(ms)) {
      forall k | 0 < k <= |ms| ensures !Bails(Traces(ms[..k])) {
        TracesPrefix(ms, k);
      }
    }
  }

  /** What the chain decides, outright, from the last mount that was started. */
  lemma ChainIs(ms: seq<Mount>)
    ensures ChainOutcome(ms) == CONTINUE <==> AllContinued(ms)
    ensures !AllContinued(ms) ==>
              var k := Started(ms, 0);
              && k > 0
              && (ms[k - 1].end == Returns(RESPOND) ==> ChainOutcome(ms) == RESPOND)
              && (ms[k - 1].end == Returns(FATAL) || ms[k - 1].end == Returns(CONTINUE) ==> ChainOutcome(ms) == FATAL)
              && (ms[k - 1].end.Jumps? ==> ChainOutcome(ms) == if Vouches(Traces(ms[..k])) then RESPOND else FATAL)
  {
    if !AllContinued(ms) {
      var i: nat :| i < |ms| && !Continued(ms, i);
      FailsClosed(ms, i);
    }
  }

  class Thread {
    var engine: Engine
    var mwActive: int
    var mwOutcome: Outcome
    var mwRan: nat
    var response: int
    /** The mounts that were entered, in order, and whether the application script was. */
    var entered: seq<nat>
    var appRan: bool

    constructor ()
    {
      engine := Engine(false, false, false, 200);
      mwActive, mwOutcome, mwRan, response := -1, CONTINUE, 0, 200;
      entered, appRan := [], false;
    }

    /** The engine runs: each event hits the thread's flags. */
    method Play(tr: Trace)
      modifies this`engine
      ensures engine == FeedAll(old(engine), tr)
    {
      for i := 0 to |tr|
        invariant FeedAll(engine, tr[i..]) == FeedAll(old(engine), tr)
      {
        assert tr[i..][1..] == tr[i + 1..];
        engine := Feed(engine, tr[i]);
      }
    }

    method Begin(st: State) returns (saved: bool)
      modifies this`engine
      ensures saved == old(engine).unclean && engine == SpanBegin(st, old(engine))
    {
      saved := engine.unclean;
      if st != GENUINE {
        engine := engine.(unclean := false);
      }
      engine := engine.(exitUnwound := false);
    }

    method End(st: State, saved: bool) returns (st': State)
      modifies this`engine
      ensures (st', engine) == SpanEnd(st, saved, old(engine))
    {
      st' := st;
      if st != GENUINE && engine.unclean {
        st' := if engine.exitUnwound then EXIT else GENUINE;
      }
      if saved {
        engine := engine.(unclean := true);
      }
    }

    /**
      One turn of the chain's loop. `end` is how the mount ended after the check
      for a bailout or a fatal error that the mount itself did not report.
     */
    method RunMount(ms: seq<Mount>, k: nat, ghost g: Engine) returns (end: MountEnd)
      requires k < |ms| && Plausible(ms[k])
      requires !g.unclean && !g.exitUnwound && !g.lastFatal && engine == FeedAll(g, Traces(ms[..k]))
      modifies this`engine, this`mwActive, this`mwRan, this`entered
      ensures engine == FeedAll(g, Traces(ms[..k + 1])) && entered == old(entered) + [k]
      ensures end == Returns(CONTINUE) <==> Continued(ms, k)
      ensures end.Jumps? <==> ms[k].end.Jumps?
      ensures end.Jumps? ==> mwActive == k && mwRan == old(mwRan)
      ensures end.Returns? ==> mwActive == -1 && mwRan == k + 1
      ensures end.Returns? && !Continued(ms, k) ==> end.outcome == StopOutcome(ms[k])
    {
      mwActive := k;
      entered := entered + [k];
      TracesSnoc(ms, k);
      FeedAppend(g, Traces(ms[..k]), ms[k].trace);
      Play(ms[k].trace);
      FeedFlags(g, Traces(ms[..k + 1]));
      FeedLast(g, Traces(ms[..k + 1]));
      end := ms[k].end;
      if end.Jumps? {
        return;
      }
      mwActive := -1;
      mwRan := k + 1;
      if end.outcome == CONTINUE && (engine.unclean || engine.lastFatal) {
        end := Returns(FATAL);
      }
    }

    /**
      `ephpm_run_middleware_chain`. A jump out of a mount leaves the loop with the
      cursor still on that mount.
     */
    method RunChain(ms: seq<Mount>) returns (end: MountEnd)
      requires !engine.unclean && !engine.exitUnwound && !engine.lastFatal
      requires mwActive == -1 && entered == []
      requires forall i | 0 <= i < |ms| :: Plausible(ms[i])
      modifies this`engine, this`mwActive, this`mwRan, this`entered
      ensures UpTo(entered, Started(ms, 0))
      ensures engine == FeedAll(old(engine), Traces(ms[..Started(ms, 0)]))
      ensures end == Returns(CONTINUE) <==> AllContinued(ms)
      ensures end.Returns? ==> end.outcome == ChainOutcome(ms) && mwActive == -1
      ensures end.Returns? ==> mwRan == if ms == [] then old(mwRan) else Started(ms, 0)
      ensures end.Jumps? ==> Started(ms, 0) > 0 && ms[Started(ms, 0) - 1].end.Jumps? && mwActive == Started(ms, 0) - 1
    {
      end := Returns(CONTINUE);
      assert ms[..0] == [];
      for k := 0 to |ms|
        invariant end == Returns(CONTINUE) && mwActive == -1
        invariant forall i: nat | i < k :: Continued(ms, i)
        invariant UpTo(entered, k)
        invariant engine == FeedAll(old(engine), Traces(ms[..k]))
        invariant mwRan == if k == 0 then old(mwRan) else k
      {
        StartedIs(ms, k);
        end := RunMount(ms, k, old(engine));
        if end != Returns(CONTINUE) {
          return;
        }
      }
      StartedIs(ms, |ms|);
    }

    /** A phase after the first: its own span, with nothing to decide but the state. */
    method Phase(st: State, tr: Trace) returns (st': State)
      modifies this`engine
      ensures (st', engine) == Span(st, old(engine), tr)
    {
      var saved := Begin(st);
      Play(tr);
      st' := End(st, saved);
    }

    /** The application script, after a chain that let it through. */
    method RunApp(app: Script) returns (result: Result, jumped: bool)
      modifies this`engine, this`appRan
      ensures appRan && engine == FeedAll(old(engine), app.trace)
      ensures jumped <==> app.end.Escapes?
      ensures result == if app.end == Finishes(true) then SCRIPT_EXIT else OK
    {
      appRan := true;
      Play(app.trace);
      jumped := app.end.Escapes?;
      result := if !jumped && app.end.exited then SCRIPT_EXIT else OK;
    }

    /** The first phase: chain, then script. `mark` is the mount a jump came from, or -1. */
    method Scripts(ms: seq<Mount>, app: Script) returns (result: Result, jumped: bool, mark: int)
      requires !engine.unclean && !engine.exitUnwound && !engine.lastFatal
      requires mwActive == -1
      requires (forall i | 0 <= i < |ms| :: Plausible(ms[i])) && PlausibleScript(app)
      modifies this`engine, this`mwActive, this`mwOutcome, this`mwRan, this`entered, this`appRan
      ensures appRan <==> AllContinued(ms)
      ensures UpTo(entered, Started(ms, 0)) && mwActive == -1
      ensures engine == FeedAll(old(engine), PhaseOne(ms, app))
      ensures mark >= 0 ==> mark == Started(ms, 0) - 1 && ms[mark].end.Jumps?
      ensures mark < 0 ==> mwOutcome == ChainOutcome(ms)
      ensures mark < 0 ==> mwRan == if ms == [] then old(mwRan) else Started(ms, 0)
      ensures jumped <==> mark >= 0 || (AllContinued(ms) && app.end.Escapes?)
      ensures !jumped ==> result == if ChainOutcome(ms) == RESPOND || (AllContinued(ms) && app.end == Finishes(true))
                                    then SCRIPT_EXIT else OK
    {
      result, jumped, mark := OK, false, -1;
      entered, appRan := [], false;
      ghost var g := engine;
      var end := RunChain(ms);
      PhaseOneIs(ms, app, g);
      if end.Jumps? {
        jumped, mark := true, mwActive;
        mwActive := -1;
        return;
      }
      mwOutcome := end.outcome;
      if mwOutcome == RESPOND {
        result := SCRIPT_EXIT;
      } else if mwOutcome == CONTINUE {
        result, jumped := RunApp(app);
      }
    }

    /** The first span with its verdict: what a jump means is decided once it is classified. */
    method FirstPhase(ms: seq<Mount>, app: Script) returns (result: Result, st: State)
      requires !engine.unclean && !engine.lastFatal
      requires mwActive == -1 && mwRan == 0
      requires (forall i | 0 <= i < |ms| :: Plausible(ms[i])) && PlausibleScript(app)
      modifies this`engine, this`mwActive, this`mwOutcome, this`mwRan, this`entered, this`appRan
      ensures appRan <==> AllContinued(ms)
      ensures UpTo(entered, Started(ms, 0)) && mwRan == |entered|
      ensures mwOutcome == ChainOutcome(ms) && mwActive == -1
      ensures (st, engine) == Span(NONE, old(engine), PhaseOne(ms, app))
      ensures st != GENUINE ==> result == if Exited(st, ms, app) then SCRIPT_EXIT else OK
    {
      ghost var g := engine;
      var saved := Begin(NONE);
      var jumped, mark;
      result, jumped, mark := Scripts(ms, app);
      st := End(NONE, saved);
      SpanVerdict(NONE, g, PhaseOne(ms, app));
      if mark >= 0 {
        MountJump(ms, app);
      } else if jumped {
        ScriptJump(ms, app);
      }
      result := Settle(result, st, jumped, mark);
    }

    /** What a jump out of the first phase turns out to have been. */
    method Settle(before: Result, st: State, jumped: bool, mark: int) returns (result: Result)
      requires mark >= 0 ==> jumped
      modifies this`mwRan, this`mwOutcome
      ensures mark < 0 ==> mwRan == old(mwRan) && mwOutcome == old(mwOutcome)
      ensures mark >= 0 ==> mwRan == mark + 1 && mwOutcome == if st == EXIT then RESPOND else FATAL
      ensures result == if jumped then (if st == EXIT then SCRIPT_EXIT else BAILOUT)
                        else if st == EXIT && before == OK then SCRIPT_EXIT else before
    {
      result := before;
      if jumped {
        var exited := st == EXIT;
        if mark >= 0 {
          mwRan := mark + 1;
          mwOutcome := if exited then RESPOND else FATAL;
        }
        result := if exited then SCRIPT_EXIT else BAILOUT;
      } else if st == EXIT && result == OK {
        result := SCRIPT_EXIT;
      }
    }

    /**
      `ephpm_run_request`. `st` is the final classification. The host has cleared
      the request (`ephpm_request_clear`) before it.
     */
    method RunRequest(ms: seq<Mount>, app: Script, shutdown: Trace, flush: Trace, timeoutMessage: bool)
      returns (result: Result, st: State)
      requires mwActive == -1 && mwRan == 0
      requires (forall i | 0 <= i < |ms| :: Plausible(ms[i])) && PlausibleScript(app)
      modifies this
      // fails closed
      ensures appRan <==> AllContinued(ms)
      ensures UpTo(entered, Started(ms, 0)) && mwRan == |entered|
      ensures mwOutcome == ChainOutcome(ms) && mwActive == -1
      // classified
      ensures (st, engine) == Spans(NONE, old(engine).(unclean := false, lastFatal := false), [PhaseOne(ms, app), shutdown, flush])
      ensures st == Verdict([PhaseOne(ms, app), shutdown, flush])
      ensures engine.unclean == AnyBails([PhaseOne(ms, app), shutdown, flush])
      ensures response == 500 <==> st == GENUINE || engine.status == 500 || (engine.lastFatal && engine.status == 200)
      ensures response != 500 ==> response == engine.status
      ensures result == if st == GENUINE then (if timeoutMessage then TIMEOUT else BAILOUT)
                        else if st == EXIT || mwOutcome == RESPOND || (appRan && app.end == Finishes(true)) then SCRIPT_EXIT else OK
    {
      engine := engine.(lastFatal := false, unclean := false);
      ThreeSpans(engine, PhaseOne(ms, app), shutdown, flush);
      result, st := FirstPhase(ms, app);
      st := Phase(st, shutdown);
      st := Phase(st, flush);
      if st == EXIT && result == OK {
        result := SCRIPT_EXIT;
      }

      response := engine.status;
      if st == GENUINE {
        response := 500;
        result := if timeoutMessage then TIMEOUT else BAILOUT;
      } else if engine.lastFatal && response == 200 {
        response := 500;
      }
    }
  }

  /** The engine after the first phase, in the two ways it can go. */
  lemma PhaseOneIs(ms: seq<Mount>, app: Script, g: Engine)
    ensures var after := FeedAll(g, Traces(ms[..Started(ms, 0)]));
            FeedAll(g, PhaseOne(ms, app)) == if AllContinued(ms) then FeedAll(after, app.trace) else after
  {
    var ran := Traces(ms[..Started(ms, 0)]);
    if AllContinued(ms) {
      FeedAppend(g, ran, app.trace);
    } else {
      assert ran + [] == ran;
    }
  }

  /** A jump past the script is a bailout of the first span. */
  lemma ScriptJump(ms: seq<Mount>, app: Script)
    requires PlausibleScript(app) && AllContinued(ms) && app.end.Escapes?
    ensures Bails(PhaseOne(ms, app))
  {
    var tr := PhaseOne(ms, app);
    assert tr[|tr| - 1] == app.trace[|app.trace| - 1];
  }

  lemma JumpStops(ms: seq<Mount>, k: nat)
    requires k < |ms| && ms[k].end.Jumps?
    ensures !AllContinued(ms)
  {
    assert !Continued(ms, k);
  }

  /** So is a jump out of a mount, and the chain ended there. */
  lemma MountJump(ms: seq<Mount>, app: Script)
    requires forall i | 0 <= i < |ms| :: Plausible(ms[i])
    requires Started(ms, 0) > 0 && ms[Started(ms, 0) - 1].end.Jumps?
    ensures Bails(PhaseOne(ms, app))
    ensures ChainOutcome(ms) == if Vouches(PhaseOne(ms, app)) then RESPOND else FATAL
  {
    var k := Started(ms, 0);
    JumpStops(ms, k - 1);
    LastBails(ms, k);
    assert PhaseOne(ms, app) == Traces(ms[..k]);
  }

  lemma LastBails(ms: seq<Mount>, k: nat)
    requires 0 < k <= |ms| && ms[k - 1].end.Jumps? && Plausible(ms[k - 1])
    ensures Bails(Traces(ms[..k]))
  {
    TracesSnoc(ms, k - 1);
    assert Traces(ms[..k])[|Traces(ms[..k])| - 1].Bail?;
  }

  /** Three spans one after the other; a state never gets better. */
  lemma ThreeSpans(g: Engine, a: Trace, b: Trace, c: Trace)
    ensures var (st1, g1) := Span(NONE, g, a);
            var (st2, g2) := Span(st1, g1, b);
            var (st3, g3) := Span(st2, g2, c);
            && Spans(NONE, g, [a, b, c]) == (st3, g3)
            && st3 == Verdict([a, b, c]) && g3.unclean == (g.unclean || AnyBails([a, b, c]))
            && (st1 == GENUINE ==> st3 == GENUINE) && (st1 == EXIT ==> st3 != NONE)
  {
    assert [a, b, c][1..] == [b, c] && [b, c][1..] == [c] && [c][1..] == [];
    var (st1, g1) := Span(NONE, g, a);
    var (st2, g2) := Span(st1, g1, b);
    var (st3, g3) := Span(st2, g2, c);
    assert Spans(st2, g2, [c]) == Spans(st3, g3, []);
    assert Spans(st1, g1, [b, c]) == Spans(st2, g2, [c]);
    Classified(NONE, g, [a, b, c]);
  }

  /**
    A request that keeps its status although it crashed: its only mount exits, the
    exit is freed with no frame left, and a destructor of the mount's static
    variables bails out. Only a fatal error that the bailout leaves behind, and
    only with the default status, still gives 500.
   */
  lemma CrashKeepsStatus(app: Script, fatal: bool, g: Engine)
    requires !g.lastFatal
    ensures var tr := [FreeExit(false)] + (if fatal then [Error(true)] else []) + [Bail(false)];
            var ms := [Mount(tr, Jumps)];
            var spans := [PhaseOne(ms, app), [], []];
            && Plausible(ms[0]) && ExitsFreeFirst(PhaseOne(ms, app)) && ChainOutcome(ms) == RESPOND
            && Cause(spans) == GENUINE
            && Response(Spans(NONE, g, spans).0, Spans(NONE, g, spans).1) == if fatal && g.status == 200 then 500 else g.status
  {
    var tr := [FreeExit(false)] + (if fatal then [Error(true)] else []) + [Bail(false)];
    var ms := [Mount(tr, Jumps)];
    OneMount(ms, app);
    CrashPassesForExit(g, fatal);
    MountJump(ms, app);
    CrashEngine(g, fatal);
  }

  lemma OneMount(ms: seq<Mount>, app: Script)
    requires |ms| == 1 && ms[0].end.Jumps?
    ensures Started(ms, 0) == 1 && PhaseOne(ms, app) == ms[0].trace
  {
    assert !Continued(ms, 0);
    JumpStops(ms, 0);
    TracesSnoc(ms, 0);
    assert ms[..0] == [] && ms[..1] == ms;
  }

  /** What such a span and two empty ones leave of the last error and the status. */
  lemma CrashEngine(g: Engine, fatal: bool)
    ensures var tr := [FreeExit(false)] + (if fatal then [Error(true)] else []) + [Bail(false)];
            var g' := Spans(NONE, g, [tr, [], []]).1;
            g'.status == g.status && g'.lastFatal == (fatal || g.lastFatal)
  {
    var tr := [FreeExit(false)] + (if fatal then [Error(true)] else []) + [Bail(false)];
    ThreeSpans(g, tr, [], []);
    FeedLast(SpanBegin(NONE, g), tr);
    var n := |tr| - 1;
    assert tr[n] == Bail(false);
    assert [FreeExit(false)][..0] == [];
    if fatal {
      assert tr[..n] == [FreeExit(false), Error(true)];
      assert tr[..n][..1] == [FreeExit(false)];
    } else {
      assert tr[..n] == [FreeExit(false)];
    }
    assert StatusAfter(g.status, tr) == g.status && FatalAfter(g.lastFatal, tr) == (fatal || g.lastFatal);
  }
}
