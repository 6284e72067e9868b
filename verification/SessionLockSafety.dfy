/** Safety of the session lock over every run. */
module SessionLockSafety {
  import opened Options
  import opened SessionLock

  // ----- the invariant

  /** A thread with a live token drew it itself, for the session it is dealing with. */
  predicate OwnToken(s: State, t: Tid)
    requires t in s.threads
  {
    var th := s.threads[t];
    && (th.pc.Trying? || th.pc.Granted? || th.pc.NeedToken? ==> th.held == None)
    && (th.pc.Stale? ==> th.held.Some?)
    && (th.pc.Trying? || th.pc.Granted? ==>
          th.token in s.issued && s.issued[th.token] == Acquisition(t, th.pc.sid))
    && (th.held.Some? ==> th.token in s.issued && s.issued[th.token] == Acquisition(t, th.held.value))
    && (TracksAny(th) && th.confirmed ==> th.since <= s.now && th.ticket < s.grants)
  }

  ghost predicate ThreadsOk(s: State) {
    forall t <- s.threads :: OwnToken(s, t)
  }

  /** Every entry, and every request under way, was made for the session it is about. */
  ghost predicate EntriesOk(s: State) {
    && (forall sid <- s.locks ::
          s.locks[sid].token in s.issued && s.issued[s.locks[sid].token].sid == sid)
    && (forall m <- s.inflight :: m.1 in s.issued && s.issued[m.1].sid == m.0)
  }

  /** A young confirmed acquisition still owns the entry it created, untouched. */
  ghost predicate HoldersOk(s: State) {
    forall t, sid | Holds(s, t, sid) ::
      sid in s.locks && s.locks[sid] == Entry(s.threads[t].token, s.threads[t].since + TTL)
  }

  /** Some thread will still give this token back, or its clean-up was lost. */
  predicate Accounted(s: State, sid: Sid, tok: Token)
    requires tok in s.issued
  {
    var t := s.issued[tok].tid;
    tok in s.escaped || (t in s.threads && Tracks(s.threads[t], sid) && s.threads[t].token == tok)
  }

  ghost predicate NoneLost(s: State)
    requires EntriesOk(s)
  {
    && (forall sid <- s.locks :: Accounted(s, sid, s.locks[sid].token))
    && (forall m <- s.inflight :: Accounted(s, m.0, m.1))
  }

  ghost predicate Inv(s: State) {
    ThreadsOk(s) && EntriesOk(s) && HoldersOk(s) && NoneLost(s)
  }

  lemma InitialInv(s: State)
    requires Initial(s)
    ensures Inv(s)
  {
  }

  // ----- every step keeps it

  /** The thread that takes a step, if it is a step of a thread. */
  function Actor(e: Event): Option<Tid> {
    match e
    case Tick(_) => None
    case Reap(_) => None
    case Deliver(_, _) => None
    case _ => Some(e.t)
  }

  /** The steps of PS_READ. */
  predicate Reads(e: Event) {
    e.StartRead? || e.ReleaseStale? || e.DrawToken? || e.TrySetNx? || e.GiveUp? || e.Track? || e.TrackOom? || e.Fetch?
  }

  predicate OnlyActor(s: State, e: Event, t: Tid)
    requires Enabled(s, e)
  {
    && (t in Apply(s, e).threads <==> t in s.threads)
    && (t in s.threads && Actor(e) != Some(t) ==> Apply(s, e).threads[t] == s.threads[t])
  }

  lemma ReadFrame(s: State, e: Event, t: Tid)
    requires Enabled(s, e) && Reads(e)
    ensures OnlyActor(s, e, t)
  {
    match e {
      case StartRead(_, _) =>
      case ReleaseStale(_, _) =>
      case DrawToken(_, _) =>
      case TrySetNx(_, _) =>
      case GiveUp(_) =>
      case Track(_) =>
      case TrackOom(_, _) =>
      case Fetch(_, _) =>
    }
  }

  lemma OtherFrame(s: State, e: Event, t: Tid)
    requires Enabled(s, e) && !Reads(e)
    ensures OnlyActor(s, e, t)
  {
    match e {
      case Write(_, _, _, _) =>
      case Close(_, _) =>
      case Destroy(_, _, _) =>
      case DestroyData(_, _) =>
      case Bailout(_) =>
      case Abandon(_) =>
      case Tick(_) =>
      case Reap(_) =>
      case Deliver(_, _) =>
    }
  }

  /** A step leaves every thread but the actor alone. */
  lemma StepFrame(s: State, e: Event, t: Tid)
    requires Enabled(s, e)
    ensures t in Apply(s, e).threads <==> t in s.threads
    ensures t in s.threads && Actor(e) != Some(t) ==> Apply(s, e).threads[t] == s.threads[t]
  {
    if Reads(e) {
      ReadFrame(s, e, t);
    } else {
      OtherFrame(s, e, t);
    }
  }

  /** Tokens, lost clean-ups, grants and time only grow. */
  lemma StepMonotone(s: State, e: Event)
    requires Enabled(s, e)
    ensures forall tok <- s.issued :: tok in Apply(s, e).issued && Apply(s, e).issued[tok] == s.issued[tok]
    ensures s.escaped <= Apply(s, e).escaped && s.grants <= Apply(s, e).grants && s.now <= Apply(s, e).now
  {
  }

  /** The calls of `del_if_eq`: PS_CLOSE, PS_DESTROY, a stale lock, and the out-of-memory undo. */
  predicate Releases(e: Event) {
    e.Close? || e.Destroy? || e.ReleaseStale? || e.TrackOom?
  }

  /**
    A live entry is never overwritten, and only one step removes it: a release by
    a thread that tracks this very session and still carries this very token.
   */
  lemma LiveEntryKept(s: State, e: Event, sid: Sid)
    requires Enabled(s, e) && Live(s, sid)
    ensures || (sid in Apply(s, e).locks && Apply(s, e).locks[sid] == s.locks[sid])
            || (&& Releases(e) && sid !in Apply(s, e).locks
                && Tracks(s.threads[e.t], sid) && s.threads[e.t].token == s.locks[sid].token)
  {
  }

  lemma ThreadKept(s: State, e: Event, t: Tid)
    requires Enabled(s, e) && t in s.threads && OwnToken(s, t)
    ensures t in Apply(s, e).threads && OwnToken(Apply(s, e), t)
  {
    StepFrame(s, e, t);
    StepMonotone(s, e);
  }

  /** The token a step stores was there before, was under way, or was just granted to the actor. */
  lemma EntryOrigin(s: State, e: Event, sid: Sid)
    requires Enabled(s, e) && sid in Apply(s, e).locks
    ensures var tok := Apply(s, e).locks[sid].token;
            || (sid in s.locks && tok == s.locks[sid].token)
            || (sid, tok) in s.inflight
            || (e.TrySetNx? && s.threads[e.t].pc == Trying(sid) && tok == s.threads[e.t].token
                && Apply(s, e).threads[e.t].pc == Granted(sid) && Apply(s, e).threads[e.t].token == tok)
  {
  }

  lemma MessageOrigin(s: State, e: Event, m: (Sid, Token))
    requires Enabled(s, e) && m in Apply(s, e).inflight
    ensures m in s.inflight || (e.TrySetNx? && s.threads[e.t].pc == Trying(m.0) && m.1 == s.threads[e.t].token
                                && Apply(s, e).threads[e.t].pc == Granted(m.0) && Apply(s, e).threads[e.t].token == m.1)
  {
  }

  lemma EntriesStep(s: State, e: Event)
    requires ThreadsOk(s) && EntriesOk(s) && Enabled(s, e)
    ensures EntriesOk(Apply(s, e))
  {
    StepMonotone(s, e);
    var s' := Apply(s, e);
    forall sid <- s'.locks ensures s'.locks[sid].token in s'.issued && s'.issued[s'.locks[sid].token].sid == sid {
      EntryOrigin(s, e, sid);
      if e.TrySetNx? { assert OwnToken(s, e.t); }
    }
    forall m <- s'.inflight ensures m.1 in s'.issued && s'.issued[m.1].sid == m.0 {
      MessageOrigin(s, e, m);
      if e.TrySetNx? { assert OwnToken(s, e.t); }
    }
  }

  /** A thread other than the actor still holds after the step only if it held before. */
  lemma BystanderHolds(s: State, e: Event, t: Tid, sid: Sid)
    requires Inv(s) && Enabled(s, e) && Holds(Apply(s, e), t, sid) && Actor(e) != Some(t)
    ensures Holds(s, t, sid) && Live(s, sid)
    ensures sid in Apply(s, e).locks && Apply(s, e).locks[sid] == s.locks[sid]
  {
    StepFrame(s, e, t);
    StepMonotone(s, e);
    LiveEntryKept(s, e, sid);
    assert OwnToken(s, t);
    if Releases(e) {
      assert OwnToken(s, e.t);
    }
  }

  lemma HolderKept(s: State, e: Event, t: Tid, sid: Sid)
    requires Inv(s) && Enabled(s, e) && Holds(Apply(s, e), t, sid)
    ensures var s' := Apply(s, e);
            sid in s'.locks && s'.locks[sid] == Entry(s'.threads[t].token, s'.threads[t].since + TTL)
  {
    if Actor(e) != Some(t) {
      BystanderHolds(s, e, t, sid);
      StepFrame(s, e, t);
    } else {
      assert OwnToken(s, t);
    }
  }

  /** A token that is still stored or under way after the step is still accounted for. */
  lemma TokenAccounted(s: State, e: Event, sid: Sid, tok: Token)
    requires ThreadsOk(s) && Enabled(s, e)
    requires tok in s.issued && Accounted(s, sid, tok) && s.issued[tok].sid == sid
    requires (sid in Apply(s, e).locks && Apply(s, e).locks[sid].token == tok) || (sid, tok) in Apply(s, e).inflight
    ensures tok in Apply(s, e).issued && Accounted(Apply(s, e), sid, tok)
  {
    StepFrame(s, e, s.issued[tok].tid);
    StepMonotone(s, e);
  }

  lemma NoneLostStep(s: State, e: Event)
    requires Inv(s) && Enabled(s, e)
    ensures EntriesOk(Apply(s, e)) && NoneLost(Apply(s, e))
  {
    EntriesStep(s, e);
    var s' := Apply(s, e);
    forall sid <- s'.locks ensures Accounted(s', sid, s'.locks[sid].token) {
      EntryOrigin(s, e, sid);
      var tok := s'.locks[sid].token;
      if (sid in s.locks && tok == s.locks[sid].token) || (sid, tok) in s.inflight {
        TokenAccounted(s, e, sid, tok);
      } else {
        ThreadKept(s, e, e.t);
      }
    }
    forall m <- s'.inflight ensures Accounted(s', m.0, m.1) {
      MessageOrigin(s, e, m);
      if m in s.inflight {
        TokenAccounted(s, e, m.0, m.1);
      } else {
        ThreadKept(s, e, e.t);
      }
    }
  }

  lemma InvStep(s: State, e: Event)
    requires Inv(s) && Enabled(s, e)
    ensures Inv(Apply(s, e))
  {
    forall t <- Apply(s, e).threads ensures OwnToken(Apply(s, e), t) {
      StepFrame(s, e, t);
      ThreadKept(s, e, t);
    }
    forall t, sid | Holds(Apply(s, e), t, sid)
      ensures sid in Apply(s, e).locks && Apply(s, e).locks[sid]
           == Entry(Apply(s, e).threads[t].token, Apply(s, e).threads[t].since + TTL)
    {
      HolderKept(s, e, t, sid);
    }
    NoneLostStep(s, e);
  }

  lemma {:induction false} InvRun(s: State, es: seq<Event>)
    requires Inv(s) && ValidRun(s, es)
    ensures Inv(Exec(s, es))
    decreases |es|
  {
    if es != [] {
      InvStep(s, es[0]);
      InvRun(Apply(s, es[0]), es[1..]);
    }
  }

  // ----- what it means for every run

  /** `s` is reached from a fresh start by some run. */
  ghost predicate Reachable(s: State) {
    exists s0, es :: Initial(s0) && ValidRun(s0, es) && Exec(s0, es) == s
  }

  lemma ReachableInv(s: State)
    requires Reachable(s)
    ensures Inv(s)
  {
    var s0, es :| Initial(s0) && ValidRun(s0, es) && Exec(s0, es) == s;
    InitialInv(s0);
    InvRun(s0, es);
  }

  /** A release never removes an entry that another acquisition created. */
  lemma ReleaseTakesOnlyItsOwn(s: State, e: Event, sid: Sid)
    requires Reachable(s) && Enabled(s, e) && Live(s, sid) && sid !in Apply(s, e).locks
    ensures Releases(e)
    ensures s.locks[sid].token in s.issued && s.issued[s.locks[sid].token] == Acquisition(e.t, sid)
    ensures s.threads[e.t].token == s.locks[sid].token
  {
    ReachableInv(s);
    LiveEntryKept(s, e, sid);
    assert OwnToken(s, e.t);
  }

  /**
    While a confirmed acquisition is unreleased and younger than its TTL, no
    request for the same session creates an entry: not a `set_nx` answered 1, not
    one that landed although its sender was told "unknown", not one that arrives late.
   */
  lemma NoSecondGrant(s: State, e: Event, t: Tid, sid: Sid)
    requires Reachable(s) && Enabled(s, e) && Holds(s, t, sid)
    ensures sid in s.locks && (sid in Apply(s, e).locks ==> Apply(s, e).locks[sid] == s.locks[sid])
    ensures sid !in Apply(s, e).locks ==> Releases(e) && e.t == t
    ensures forall t' | t' != t :: !Holds(Apply(s, e), t', sid)
  {
    ReachableInv(s);
    LiveEntryKept(s, e, sid);
    assert OwnToken(s, t);
    if Releases(e) { assert OwnToken(s, e.t); }
    InvStep(s, e);
    StepMonotone(s, e);
    forall t' | t' != t ensures !Holds(Apply(s, e), t', sid) {
      if t' in Apply(s, e).threads { assert OwnToken(Apply(s, e), t'); }
    }
  }

  /** What one attempt leaves in the store: an entry of 30 s where none was alive, or what was there. */
  predicate Stored(s: State, sid: Sid, token: Token, s': State) {
    s'.locks == if Live(s, sid) then s.locks else s.locks[sid := Entry(token, s.now + 30_000)]
  }

  /**
    One attempt, by its fate. An answer makes a holder exactly if no live entry is
    in the way; an unknown outcome makes a holder of nothing, and is in the store,
    nowhere, or still under way.
   */
  lemma AttemptExactly(s: State, t: Tid, sid: Sid, fate: Fate)
    requires Enabled(s, TrySetNx(t, fate)) && s.threads[t].pc == Trying(sid)
    ensures var s', tok := Apply(s, TrySetNx(t, fate)), s.threads[t].token;
            if fate.Refused? || (fate.Answered? && Live(s, sid)) then s' == s
            else
              && s'.threads[t].pc == Granted(sid) && (s'.threads[t].confirmed <==> fate.Answered?)
              && (Holds(s', t, sid) <==> fate.Answered?)
              && (if fate.Answered? || fate.UnknownLanded? then Stored(s, sid, tok, s') else s'.locks == s.locks)
              && s'.inflight == s.inflight + if fate.UnknownInFlight? then {(sid, tok)} else {}
  {
  }

  /** Mutual exclusion: two threads never both hold one session. */
  lemma MutualExclusion(s: State, t: Tid, t': Tid, sid: Sid)
    requires Reachable(s) && Holds(s, t, sid) && Holds(s, t', sid)
    ensures t == t'
  {
    ReachableInv(s);
    assert OwnToken(s, t) && OwnToken(s, t');
  }
}
