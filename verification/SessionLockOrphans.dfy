/** When a lock entry can outlive the request that took it. */
module SessionLockOrphans {
  import opened Options
  import opened SessionLock
  import opened SessionLockSafety

  /** Thread `t` is alive and will still give the entry of `sid` back. */
  predicate Answers(s: State, t: Tid, sid: Sid)
    requires sid in s.locks
  {
    Alive(s, t) && Tracks(s.threads[t], sid) && s.threads[t].token == s.locks[sid].token
  }

  ghost predicate Orphan(s: State, sid: Sid) {
    sid in s.locks && forall t :: !Answers(s, t, sid)
  }

  /** The session whose lock the step gives up. */
  function GivenUp(s: State, e: Event): Option<Sid>
    requires Enabled(s, e)
  {
    match e
    case Close(t, _) => s.threads[t].held
    case ReleaseStale(t, _) => s.threads[t].held
    case Destroy(t, sid, _) => if s.threads[t].held == Some(sid) then Some(sid) else None
    case TrackOom(t, _) => Some(s.threads[t].pc.sid)
    case _ => None
  }

  /** The compare-and-delete gets through and does not overtake its own `set_nx`; no holder is abandoned. */
  predicate Clean(s: State, e: Event)
    requires Enabled(s, e)
  {
    && (GivenUp(s, e).Some? ==> e.reached && (GivenUp(s, e).value, s.threads[e.t].token) !in s.inflight)
    && (e.Abandon? ==> !TracksAny(s.threads[e.t]))
  }

  predicate CleanRun(s: State, es: seq<Event>)
    requires ValidRun(s, es)
    decreases |es|
  {
    es == [] || (Clean(s, es[0]) && CleanRun(Apply(s, es[0]), es[1..]))
  }

  /** Nothing was lost so far: no clean-up escaped and no tracking thread is dead. */
  ghost predicate Tidy(s: State) {
    s.escaped == {} && forall t <- s.threads | s.threads[t].dead :: !TracksAny(s.threads[t])
  }

  lemma TidyStep(s: State, e: Event)
    requires Enabled(s, e) && Clean(s, e) && Tidy(s)
    ensures Tidy(Apply(s, e))
  {
    assert Apply(s, e).escaped == {};
    forall t <- Apply(s, e).threads | Apply(s, e).threads[t].dead ensures !TracksAny(Apply(s, e).threads[t]) {
      StepFrame(s, e, t);
    }
  }

  lemma {:induction false} TidyRun(s: State, es: seq<Event>)
    requires ValidRun(s, es) && CleanRun(s, es) && Tidy(s)
    ensures Tidy(Exec(s, es))
    decreases |es|
  {
    if es != [] {
      TidyStep(s, es[0]);
      TidyRun(Apply(s, es[0]), es[1..]);
    }
  }

  /** After any clean run every entry is answered for, by exactly one thread. */
  lemma NoOrphan(s0: State, es: seq<Event>, sid: Sid)
    requires Initial(s0) && (forall t <- s0.threads :: !s0.threads[t].dead)
    requires ValidRun(s0, es) && CleanRun(s0, es)
    requires sid in Exec(s0, es).locks
    ensures exists t :: Answers(Exec(s0, es), t, sid)
    ensures forall t, t' | Answers(Exec(s0, es), t, sid) && Answers(Exec(s0, es), t', sid) :: t == t'
  {
    var s := Exec(s0, es);
    InitialInv(s0);
    InvRun(s0, es);
    TidyRun(s0, es);
    assert Accounted(s, sid, s.locks[sid].token);
    assert Answers(s, s.issued[s.locks[sid].token].tid, sid);
    forall t, t' | Answers(s, t, sid) && Answers(s, t', sid) ensures t == t' {
      assert OwnToken(s, t) && OwnToken(s, t');
    }
  }

  // ----- exactly when giving a lock up can leave an entry behind

  /** No entry carries the token and none ever will again. */
  ghost predicate Gone(s: State, tok: Token) {
    && tok in s.issued
    && (forall sid <- s.locks :: s.locks[sid].token != tok)
    && (forall m <- s.inflight :: m.1 != tok)
    && (forall t <- s.threads | s.threads[t].pc.Trying? :: s.threads[t].token != tok)
  }

  lemma GoneStep(s: State, e: Event, tok: Token)
    requires Gone(s, tok) && Enabled(s, e)
    ensures Gone(Apply(s, e), tok)
  {
    StepMonotone(s, e);
    var s' := Apply(s, e);
    forall sid <- s'.locks ensures s'.locks[sid].token != tok {
      EntryOrigin(s, e, sid);
    }
    forall t <- s'.threads | s'.threads[t].pc.Trying? ensures s'.threads[t].token != tok {
      StepFrame(s, e, t);
    }
  }

  lemma {:induction false} GoneForever(s: State, es: seq<Event>, tok: Token)
    requires Gone(s, tok) && ValidRun(s, es)
    ensures Gone(Exec(s, es), tok)
    decreases |es|
  {
    if es != [] {
      GoneStep(s, es[0], tok);
      GoneForever(Apply(s, es[0]), es[1..], tok);
    }
  }

  /** The guard of the failing family: the delete is lost while the entry stands, or the `set_nx` is still under way. */
  predicate CleanupLost(s: State, e: Event, sid: Sid)
    requires Enabled(s, e) && GivenUp(s, e) == Some(sid)
  {
    var tok := s.threads[e.t].token;
    (!e.reached && sid in s.locks && s.locks[sid].token == tok) || (sid, tok) in s.inflight
  }

  /** What every one of the four places that give a lock up does. */
  lemma GivesUp(s: State, e: Event, sid: Sid)
    requires Enabled(s, e) && GivenUp(s, e) == Some(sid) && OwnToken(s, e.t)
    ensures var s', th := Apply(s, e), Apply(s, e).threads[e.t];
            && s'.locks == (if e.reached then DelIfEq(s.locks, sid, s.threads[e.t].token) else s.locks)
            && s'.inflight == s.inflight && s'.issued == s.issued && s'.now == s.now
            && !TracksAny(th) && !th.pc.Trying? && th.token == s.threads[e.t].token
  {
  }

  /** After giving a lock up nobody else carries its token. */
  lemma NobodyElse(s: State, e: Event, sid: Sid, t: Tid)
    requires Inv(s) && Enabled(s, e) && GivenUp(s, e) == Some(sid) && t in Apply(s, e).threads
    ensures var th := Apply(s, e).threads[t];
            TracksAny(th) || th.pc.Trying? ==> th.token != s.threads[e.t].token
  {
    assert OwnToken(s, e.t);
    GivesUp(s, e, sid);
    StepFrame(s, e, t);
    assert OwnToken(s, t);
  }

  /** With the clean-up intact, no later entry ever carries the token. */
  lemma ReleaseForgets(s: State, e: Event, sid: Sid, es: seq<Event>)
    requires Reachable(s) && Enabled(s, e) && GivenUp(s, e) == Some(sid) && !CleanupLost(s, e, sid)
    requires ValidRun(Apply(s, e), es)
    ensures Gone(Exec(Apply(s, e), es), s.threads[e.t].token)
  {
    ReachableInv(s);
    var s' := Apply(s, e);
    assert OwnToken(s, e.t);
    GivesUp(s, e, sid);
    forall t <- s'.threads | s'.threads[t].pc.Trying? ensures s'.threads[t].token != s.threads[e.t].token {
      NobodyElse(s, e, sid, t);
    }
    GoneForever(s', es, s.threads[e.t].token);
  }

  /** With the clean-up lost, some continuation leaves an entry nobody will give back. */
  lemma ReleaseMayOrphan(s: State, e: Event, sid: Sid) returns (es: seq<Event>)
    requires Reachable(s) && Enabled(s, e) && GivenUp(s, e) == Some(sid) && CleanupLost(s, e, sid)
    ensures ValidRun(Apply(s, e), es)
    ensures Orphan(Exec(Apply(s, e), es), sid)
  {
    ReachableInv(s);
    var tok, s1 := s.threads[e.t].token, Apply(s, e);
    assert OwnToken(s, e.t);
    GivesUp(s, e, sid);
    forall t <- s1.threads ensures !Tracks(s1.threads[t], sid) || s1.threads[t].token != tok {
      NobodyElse(s, e, sid, t);
    }
    if !e.reached && sid in s.locks && s.locks[sid].token == tok {
      es := [];
    } else {
      var wait := if sid in s1.locks then s1.locks[sid].expires else 0;
      es := [Tick(wait), Deliver(sid, tok)];
      LateDelivery(s1, sid, tok, wait);
    }
  }

  /** A request that arrives once the entry in its way has expired makes an entry of its own. */
  lemma LateDelivery(s: State, sid: Sid, tok: Token, wait: nat)
    requires (sid, tok) in s.inflight && (sid in s.locks ==> s.locks[sid].expires <= s.now + wait)
    ensures var es := [Tick(wait), Deliver(sid, tok)];
            && ValidRun(s, es) && Exec(s, es).threads == s.threads
            && sid in Exec(s, es).locks && Exec(s, es).locks[sid].token == tok
  {
    ExecSnoc(s, [], Tick(wait));
    assert [] + [Tick(wait)] == [Tick(wait)];
    ExecSnoc(s, [Tick(wait)], Deliver(sid, tok));
    assert [Tick(wait)] + [Deliver(sid, tok)] == [Tick(wait), Deliver(sid, tok)];
  }

  /** A session read while the owner of its lock is unreachable: its `set_nx` is still under way. */
  lemma ReadUnderWay(s0: State, t: Tid, sid: Sid, tok: Token) returns (es: seq<Event>)
    requires Initial(s0) && Alive(s0, t)
    ensures ValidRun(s0, es)
    ensures var s := Exec(s0, es);
            && Alive(s, t) && s.threads[t].pc == Fetching(sid) && s.threads[t].held == Some(sid)
            && s.threads[t].token == tok && (sid, tok) in s.inflight
  {
    es := [StartRead(t, sid)];
    ExecSnoc(s0, [], StartRead(t, sid));
    assert [] + [StartRead(t, sid)] == es;
    ExecSnoc(s0, es, DrawToken(t, tok));
    es := es + [DrawToken(t, tok)];
    ExecSnoc(s0, es, TrySetNx(t, UnknownInFlight));
    es := es + [TrySetNx(t, UnknownInFlight)];
    ExecSnoc(s0, es, Track(t));
    es := es + [Track(t)];
  }

  /** It does happen: such a session is closed, the delete reaches the store, and then the request lands. */
  lemma OrphanHappens(s0: State, t: Tid, sid: Sid, tok: Token) returns (es: seq<Event>)
    requires Initial(s0) && Alive(s0, t)
    ensures ValidRun(s0, es) && Orphan(Exec(s0, es), sid) && Close(t, true) in es
  {
    es := ReadUnderWay(s0, t, sid, tok);
    ExecSnoc(s0, es, Fetch(t, sid));
    es := es + [Fetch(t, sid)];
    var s := Exec(s0, es);
    ExecSnoc(s0, es, Close(t, true));
    var late := ReleaseMayOrphan(s, Close(t, true), sid);
    ExecAppend(s0, es + [Close(t, true)], late);
    es := es + [Close(t, true)] + late;
  }

  lemma {:induction false} ExecAppend(s: State, es: seq<Event>, more: seq<Event>)
    requires ValidRun(s, es) && ValidRun(Exec(s, es), more)
    ensures ValidRun(s, es + more) && Exec(s, es + more) == Exec(Exec(s, es), more)
    decreases |es|
  {
    if es == [] {
      assert es + more == more;
    } else {
      ExecAppend(Apply(s, es[0]), es[1..], more);
      assert (es + more)[1..] == es[1..] + more;
    }
  }

  // ----- how long it can last

  ghost predicate ShortLived(s: State) {
    forall sid <- s.locks :: s.locks[sid].expires <= s.now + TTL
  }

  lemma ShortLivedStep(s: State, e: Event)
    requires ShortLived(s) && Enabled(s, e)
    ensures ShortLived(Apply(s, e))
  {
    StepMonotone(s, e);
  }

  lemma {:induction false} ShortLivedRun(s: State, es: seq<Event>)
    requires ShortLived(s) && ValidRun(s, es)
    ensures ShortLived(Exec(s, es))
    decreases |es|
  {
    if es != [] {
      ShortLivedStep(s, es[0]);
      ShortLivedRun(Apply(s, es[0]), es[1..]);
    }
  }

  /** An entry, orphaned or not, is in nobody's way once a TTL has passed. */
  lemma EntryOutlived(s: State, es: seq<Event>, sid: Sid)
    requires Reachable(s) && ValidRun(s, es) && sid in s.locks
    ensures s.locks[sid].expires <= s.now + TTL
    ensures var s' := Exec(s, es);
            s'.now >= s.now + TTL && sid in s'.locks && s'.locks[sid] == s.locks[sid] ==> !Live(s', sid)
  {
    var s0, before :| Initial(s0) && ValidRun(s0, before) && Exec(s0, before) == s;
    ShortLivedRun(s0, before);
  }
}
