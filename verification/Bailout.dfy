/**
  Telling an `exit()` apart from a real bailout across the phases of a request.

  What the engine does inside a phase is a trace of the few events the code
  reacts to. `FreeExit` is the release of an exit's pseudo-exception, `Bail` is
  `zend_bailout` with its cause, `Error` is an entry in `PG(last_error_type)`.
  The code never sees the cause of a bailout; it is what its verdict is about.
 */
module Bailout {

  datatype Event =
    | FreeExit(frameLive: bool)
    | Bail(exit: bool)
    | Error(fatal: bool)
    | SetStatus(code: int)

  type Trace = seq<Event>

  datatype State = NONE | EXIT | GENUINE

  /** `CG(unclean_shutdown)`, the exit observer's flag, the fatal bits of the last error, the status. */
  datatype Engine = Engine(unclean: bool, exitUnwound: bool, lastFatal: bool, status: int)

  // ----- what the code does

  /** One event; the first case is `ephpm_unwind_exit_free_obj`. */
  function Feed(g: Engine, e: Event): Engine {
    match e
    case FreeExit(frameLive) => if !frameLive && !g.unclean then g.(exitUnwound := true) else g
    case Bail(_) => g.(unclean := true)
    case Error(fatal) => g.(lastFatal := fatal)
    case SetStatus(code) => g.(status := code)
  }

  function FeedAll(g: Engine, tr: Trace): Engine
    decreases |tr|
  {
    if tr == [] then g else FeedAll(Feed(g, tr[0]), tr[1..])
  }

  /** `ephpm_bailout_span_begin`; the saved flag is the old `unclean`. */
  function SpanBegin(st: State, g: Engine): Engine {
    g.(unclean := st.GENUINE? && g.unclean, exitUnwound := false)
  }

  /** `ephpm_bailout_span_end`: the new state, and the flag with the saved value put back. */
  function SpanEnd(st: State, saved: bool, g: Engine): (State, Engine) {
    (if !st.GENUINE? && g.unclean then (if g.exitUnwound then EXIT else GENUINE) else st,
     g.(unclean := saved || g.unclean))
  }

  function Span(st: State, g: Engine, tr: Trace): (State, Engine) {
    SpanEnd(st, g.unclean, FeedAll(SpanBegin(st, g), tr))
  }

  function Spans(st: State, g: Engine, trs: seq<Trace>): (State, Engine)
    decreases |trs|
  {
    if trs == [] then (st, g)
    else
      var (st', g') := Span(st, g, trs[0]);
      Spans(st', g', trs[1..])
  }

  // ----- what a trace means

  predicate Bails(tr: Trace) { exists i | 0 <= i < |tr| :: tr[i].Bail? }

  /** Position of the first bailout, or the length of the trace. */
  function FirstBail(tr: Trace): (k: nat)
    ensures k <= |tr| && forall i | 0 <= i < k :: !tr[i].Bail?
    ensures k < |tr| ==> tr[k].Bail?
    ensures k < |tr| <==> Bails(tr)
  {
    if tr == [] || tr[0].Bail? then 0 else 1 + FirstBail(tr[1..])
  }

  /** The span was cut off by something that was not an exit; its first bailout decides. */
  predicate RealBailout(tr: Trace) { Bails(tr) && !tr[FirstBail(tr)].exit }

  /** An exit was freed with no frame, and before any bailout. */
  predicate Vouches(tr: Trace) { FreeExit(false) in tr[..FirstBail(tr)] }

  /** The verdict on the span: a bailout that no exit explains. */
  predicate Unexplained(tr: Trace) { Bails(tr) && !Vouches(tr) }

  /** The engine's side: an exit bails out right after its object is freed with no frame left. */
  predicate ExitsFreeFirst(tr: Trace) {
    forall i | 0 <= i < |tr| && tr[i] == Bail(true) :: i > 0 && tr[i - 1] == FreeExit(false)
  }

  /** The last error of the trace decides. */
  function FatalAfter(fatal: bool, tr: Trace): bool
    decreases |tr|
  {
    if tr == [] then fatal
    else if tr[|tr| - 1].Error? then tr[|tr| - 1].fatal
    else FatalAfter(fatal, tr[..|tr| - 1])
  }

  /** So does the last status. */
  function StatusAfter(status: int, tr: Trace): int
    decreases |tr|
  {
    if tr == [] then status
    else if tr[|tr| - 1].SetStatus? then tr[|tr| - 1].code
    else StatusAfter(status, tr[..|tr| - 1])
  }

  function Worse(a: State, b: State): State {
    if a.GENUINE? || b.GENUINE? then GENUINE else if a.EXIT? || b.EXIT? then EXIT else NONE
  }

  predicate AnyBails(trs: seq<Trace>) { exists i | 0 <= i < |trs| :: Bails(trs[i]) }

  /** The state a request should end in, from the causes of the first bailouts. */
  function Cause(trs: seq<Trace>): State {
    if exists i | 0 <= i < |trs| :: RealBailout(trs[i]) then GENUINE
    else if AnyBails(trs) then EXIT
    else NONE
  }

  /** The same from what the code can observe. */
  function Verdict(trs: seq<Trace>): State {
    if exists i | 0 <= i < |trs| :: Unexplained(trs[i]) then GENUINE
    else if AnyBails(trs) then EXIT
    else NONE
  }

  // ----- what is left in the engine after a trace

  lemma {:induction false} FeedAppend(g: Engine, x: Trace, y: Trace)
    ensures FeedAll(g, x + y) == FeedAll(FeedAll(g, x), y)
    decreases |x|
  {
    if x == [] {
      assert x + y == y;
    } else {
      assert (x + y)[1..] == x[1..] + y;
      FeedAppend(Feed(g, x[0]), x[1..], y);
    }
  }

  lemma FirstBailTail(tr: Trace)
    requires tr != []
    ensures !tr[0].Bail? ==> Bails(tr) == Bails(tr[1..]) && Vouches(tr) == (tr[0] == FreeExit(false) || Vouches(tr[1..]))
    ensures tr[0].Bail? ==> Bails(tr) && !Vouches(tr)
  {
    if !tr[0].Bail? {
      assert tr[..FirstBail(tr)] == [tr[0]] + tr[1..][..FirstBail(tr[1..])];
    }
  }

  lemma {:induction false} FeedFlags(g: Engine, tr: Trace)
    ensures FeedAll(g, tr).unclean == (g.unclean || Bails(tr))
    ensures FeedAll(g, tr).exitUnwound == (g.exitUnwound || (!g.unclean && Vouches(tr)))
    decreases |tr|
  {
    if tr != [] {
      FeedFlags(Feed(g, tr[0]), tr[1..]);
      FirstBailTail(tr);
    }
  }

  lemma {:induction false} FeedLast(g: Engine, tr: Trace)
    ensures FeedAll(g, tr).lastFatal == FatalAfter(g.lastFatal, tr)
    ensures FeedAll(g, tr).status == StatusAfter(g.status, tr)
    decreases |tr|
  {
    if tr != [] {
      var n := |tr| - 1;
      assert tr == tr[..n] + [tr[n]];
      FeedAppend(g, tr[..n], [tr[n]]);
      FeedLast(g, tr[..n]);
      assert [tr[n]][1..] == [];
    }
  }

  /** Flags that tell a trace's story so far go on to tell it. */
  lemma FlagsSnoc(g: Engine, tr: Trace, e: Event)
    requires g.unclean == Bails(tr) && g.exitUnwound == Vouches(tr)
    ensures Feed(g, e).unclean == Bails(tr + [e]) && Feed(g, e).exitUnwound == Vouches(tr + [e])
  {
    var g0 := Engine(false, false, g.lastFatal, g.status);
    FeedFlags(g0, tr);
    FeedFlags(g0, tr + [e]);
    FeedAppend(g0, tr, [e]);
    assert [e][1..] == [];
  }

  /** The trace without the frees that vouch for nothing: those with a live frame, and those after a bailout. */
  function Relevant(tr: Trace, unclean: bool): Trace
    decreases |tr|
  {
    if tr == [] then []
    else
      var rest := Relevant(tr[1..], unclean || tr[0].Bail?);
      if tr[0].FreeExit? && (tr[0].frameLive || unclean) then rest else [tr[0]] + rest
  }

  /** Such frees leave no mark, wherever they stand. */
  lemma {:induction false} IrrelevantFrees(g: Engine, tr: Trace)
    ensures FeedAll(g, Relevant(tr, g.unclean)) == FeedAll(g, tr)
    decreases |tr|
  {
    if tr != [] {
      IrrelevantFrees(Feed(g, tr[0]), tr[1..]);
      var rest := Relevant(tr[1..], g.unclean || tr[0].Bail?);
      assert ([tr[0]] + rest)[1..] == rest;
    }
  }

  // ----- one span

  /** One span, whatever happens in it. */
  lemma SpanVerdict(st: State, g: Engine, tr: Trace)
    ensures Span(st, g, tr).0 == if st.GENUINE? || !Bails(tr) then st
                                 else if Vouches(tr) then EXIT else GENUINE
    ensures Span(st, g, tr).1.unclean == (g.unclean || Bails(tr))
  {
    FeedFlags(SpanBegin(st, g), tr);
  }

  /** A span that an exit ends vouches for it. */
  lemma ExitsVouch(tr: Trace)
    requires ExitsFreeFirst(tr) && Bails(tr) && !RealBailout(tr)
    ensures Vouches(tr)
  {
    var k := FirstBail(tr);
    assert tr[k] == Bail(true);
    assert tr[..k][k - 1] == FreeExit(false);
  }

  /**
    Exactly when the verdict on a span is right: its first bailout is an exit, or
    no exit was freed without a frame before it.
   */
  lemma VerdictRight(st: State, g: Engine, tr: Trace)
    requires !st.GENUINE? && Bails(tr) && ExitsFreeFirst(tr)
    ensures Span(st, g, tr).0 == (if RealBailout(tr) then GENUINE else EXIT)
       <==> (tr[FirstBail(tr)].exit || FreeExit(false) !in tr[..FirstBail(tr)])
  {
    SpanVerdict(st, g, tr);
    if !RealBailout(tr) { ExitsVouch(tr); }
  }

  // ----- any number of spans

  lemma VerdictCons(tr: Trace, trs: seq<Trace>)
    ensures Verdict([tr] + trs) == Worse(if Unexplained(tr) then GENUINE else if Bails(tr) then EXIT else NONE, Verdict(trs))
    ensures AnyBails([tr] + trs) == (Bails(tr) || AnyBails(trs))
  {
    var all := [tr] + trs;
    assert all[0] == tr && forall i | 0 <= i < |trs| :: all[i + 1] == trs[i];
    assert forall i | 1 <= i < |all| :: all[i] == trs[i - 1];
  }

  /**
    Whatever happens in them, spans end in the worse of the state before and the
    verdict on them, and the engine's flag as the disjunction of all bailouts.
   */
  lemma {:induction false} Classified(st: State, g: Engine, trs: seq<Trace>)
    ensures Spans(st, g, trs).0 == Worse(st, Verdict(trs))
    ensures Spans(st, g, trs).1.unclean == (g.unclean || AnyBails(trs))
    decreases |trs|
  {
    if trs != [] {
      SpanVerdict(st, g, trs[0]);
      var (st', g') := Span(st, g, trs[0]);
      Classified(st', g', trs[1..]);
      assert trs == [trs[0]] + trs[1..];
      VerdictCons(trs[0], trs[1..]);
    }
  }

  /**
    The verdict on a whole request differs from the cause in one way only: there
    were real bailouts, and before each of them its span freed an exit with no frame.
   */
  lemma VerdictIsCause(trs: seq<Trace>)
    requires forall i | 0 <= i < |trs| :: ExitsFreeFirst(trs[i])
    ensures Verdict(trs) != Cause(trs) <==>
            && (exists i | 0 <= i < |trs| :: RealBailout(trs[i]))
            && (forall i | 0 <= i < |trs| && RealBailout(trs[i]) :: Vouches(trs[i]))
    ensures Verdict(trs) != Cause(trs) ==> Verdict(trs) == EXIT && Cause(trs) == GENUINE
  {
    forall i | 0 <= i < |trs| && Bails(trs[i]) && !RealBailout(trs[i]) ensures Vouches(trs[i]) {
      ExitsVouch(trs[i]);
    }
  }

  /** It does happen: an exit is freed with no frame left, and something real bails out later in the span. */
  lemma CrashPassesForExit(g: Engine, fatal: bool)
    ensures var tr := [FreeExit(false)] + (if fatal then [Error(true)] else []) + [Bail(false)];
            && ExitsFreeFirst(tr) && Bails(tr) && Vouches(tr)
            && Cause([tr, [], []]) == GENUINE && Spans(NONE, g, [tr, [], []]).0 == EXIT
  {
    var tr := [FreeExit(false)] + (if fatal then [Error(true)] else []) + [Bail(false)];
    var k := |tr| - 1;
    assert tr[k] == Bail(false) && forall i | 0 <= i < k :: !tr[i].Bail?;
    assert Bails(tr) && FirstBail(tr) == k && tr[..k][0] == FreeExit(false);
    var trs := [tr, [], []];
    assert RealBailout(trs[0]) && Vouches(trs[0]);
    Classified(NONE, g, trs);
    VerdictIsCause(trs);
  }
}
