/** Serialisability of the read-modify-write that the session lock brackets. */
module SessionSerial {
  import opened Options
  import opened SessionLock
  import opened SessionLockSafety

  /**
    The step touches the blob of `sid` only under a lock of its own: `set_nx` for
    `sid` answered 1, the lock is not yet given back, and it is younger than its
    TTL. PS_DESTROY, which gives the lock back before it deletes, is excluded.
   */
  predicate Protected(s: State, e: Event, sid: Sid) {
    match e
    case Fetch(t, sid') => sid' == sid ==> Holds(s, t, sid)
    case Write(t, sid', _, _) => sid' == sid ==> Holds(s, t, sid)
    case DestroyData(_, sid') => sid' != sid
    case _ => true
  }

  predicate ProtectedRun(s: State, es: seq<Event>, sid: Sid)
    requires ValidRun(s, es)
    decreases |es|
  {
    es == [] || (Protected(s, es[0], sid) && ProtectedRun(Apply(s, es[0]), es[1..], sid))
  }

  // ----- the sequential reference

  /** One stored update: who stored it, which grant of the lock it ran under, and what it does to the blob. */
  datatype Turn = Turn(tid: Tid, ticket: nat, update: Update)

  /** The update that a step stores for `sid`. */
  function Stored(e: Event, sid: Sid): Option<Update> {
    match e
    case Write(_, sid', u, true) => if sid' == sid then Some(u) else None
    case _ => None
  }

  /** All updates stored for `sid`, in the order they reached the store. */
  function History(s: State, es: seq<Event>, sid: Sid): seq<Turn>
    requires ValidRun(s, es)
    decreases |es|
  {
    if es == [] then []
    else
      var rest := History(Apply(s, es[0]), es[1..], sid);
      match Stored(es[0], sid)
      case Some(u) => [Turn(es[0].t, s.threads[es[0].t].ticket, u)] + rest
      case None => rest
  }

  /** One request after the other, each on the blob its predecessor left. */
  function Sequentially(b: Blob, ts: seq<Turn>): Blob
    decreases |ts|
  {
    if ts == [] then b else Sequentially(ts[0].update(b), ts[1..])
  }

  // ----- the stored blob is the sequential result

  /** A request that holds the lock and has read the blob has the current blob. */
  ghost predicate CopiesCurrent(s: State, sid: Sid) {
    forall t | Holds(s, t, sid) && s.threads[t].pc == Open(sid) :: s.threads[t].local == BlobAt(s, sid)
  }

  lemma BlobStep(s: State, e: Event, sid: Sid)
    requires CopiesCurrent(s, sid) && Enabled(s, e) && Protected(s, e, sid)
    ensures BlobAt(Apply(s, e), sid)
         == match Stored(e, sid) { case Some(u) => u(BlobAt(s, sid)) case None => BlobAt(s, sid) }
  {
  }

  lemma CopiesStep(s: State, e: Event, sid: Sid)
    requires Inv(s) && CopiesCurrent(s, sid) && Enabled(s, e) && Protected(s, e, sid)
    ensures CopiesCurrent(Apply(s, e), sid)
  {
    BlobStep(s, e, sid);
    var s' := Apply(s, e);
    forall t | Holds(s', t, sid) && s'.threads[t].pc == Open(sid) ensures s'.threads[t].local == BlobAt(s', sid) {
      if Actor(e) != Some(t) {
        BystanderHolds(s, e, t, sid);
        StepFrame(s, e, t);
        if Stored(e, sid).Some? {
          assert OwnToken(s, t) && OwnToken(s, e.t);
        }
      }
    }
  }

  lemma {:induction false} SerialFrom(s: State, es: seq<Event>, sid: Sid)
    requires Inv(s) && CopiesCurrent(s, sid) && ValidRun(s, es) && ProtectedRun(s, es, sid)
    ensures BlobAt(Exec(s, es), sid) == Sequentially(BlobAt(s, sid), History(s, es, sid))
    decreases |es|
  {
    if es != [] {
      BlobStep(s, es[0], sid);
      CopiesStep(s, es[0], sid);
      InvStep(s, es[0]);
      SerialFrom(Apply(s, es[0]), es[1..], sid);
      if Stored(es[0], sid).Some? {
        assert History(s, es, sid)[1..] == History(Apply(s, es[0]), es[1..], sid);
      }
    }
  }

  // ----- the order is the lock order

  /** `b` may come after `a`: a later grant, or the same request going on. */
  predicate Follows(a: Turn, b: Turn) {
    a.ticket < b.ticket || (a.ticket == b.ticket && a.tid == b.tid)
  }

  predicate InLockOrder(ts: seq<Turn>) {
    forall i, j | 0 <= i < j < |ts| :: Follows(ts[i], ts[j])
  }

  /** Whoever holds the lock now comes after `last`, and so will every later grant. */
  ghost predicate After(s: State, sid: Sid, last: Turn) {
    && last.ticket < s.grants
    && forall t | Holds(s, t, sid) :: last.ticket < s.threads[t].ticket || (last.ticket == s.threads[t].ticket && last.tid == t)
  }

  lemma AfterStep(s: State, e: Event, sid: Sid, last: Turn)
    requires Inv(s) && Enabled(s, e) && After(s, sid, last)
    ensures After(Apply(s, e), sid, last)
  {
    StepMonotone(s, e);
    forall t | Holds(Apply(s, e), t, sid) 
      ensures var k := Apply(s, e).threads[t].ticket; last.ticket < k || (last.ticket == k && last.tid == t)
    {
      if Actor(e) != Some(t) {
        BystanderHolds(s, e, t, sid);
        StepFrame(s, e, t);
      }
    }
  }

  lemma {:induction false} TurnsAfter(s: State, es: seq<Event>, sid: Sid, last: Turn)
    requires Inv(s) && ValidRun(s, es) && ProtectedRun(s, es, sid) && After(s, sid, last)
    ensures InLockOrder(History(s, es, sid))
    ensures forall i | 0 <= i < |History(s, es, sid)| :: Follows(last, History(s, es, sid)[i])
    decreases |es|
  {
    if es != [] {
      var e := es[0];
      var s' := Apply(s, e);
      InvStep(s, e);
      AfterStep(s, e, sid, last);
      if Stored(e, sid).Some? {
        var mine := Turn(e.t, s.threads[e.t].ticket, e.update);
        OnlyWriterHolds(s, e.t, sid, mine);
        AfterStep(s, e, sid, mine);
        TurnsAfter(s', es[1..], sid, mine);
      } else {
        TurnsAfter(s', es[1..], sid, last);
      }
    }
  }

  lemma OnlyWriterHolds(s: State, t: Tid, sid: Sid, mine: Turn)
    requires Inv(s) && Holds(s, t, sid) && mine.tid == t && mine.ticket == s.threads[t].ticket
    ensures After(s, sid, mine)
  {
    assert OwnToken(s, t);
    forall t' | Holds(s, t', sid) ensures t' == t {
      assert OwnToken(s, t');
    }
  }

  lemma {:induction false} TurnsOrdered(s: State, es: seq<Event>, sid: Sid)
    requires Inv(s) && ValidRun(s, es) && ProtectedRun(s, es, sid)
    ensures InLockOrder(History(s, es, sid))
    decreases |es|
  {
    if es != [] {
      InvStep(s, es[0]);
      if Stored(es[0], sid).Some? {
        var mine := Turn(es[0].t, s.threads[es[0].t].ticket, es[0].update);
        OnlyWriterHolds(s, es[0].t, sid, mine);
        TurnsAfter(s, es, sid, mine);
      } else {
        TurnsOrdered(Apply(s, es[0]), es[1..], sid);
      }
    }
  }

  /**
    Serialisability: after every run in which each access to the blob of `sid` is
    protected, the stored blob is the sequential application of all updates, none
    lost, and they were applied in the order in which the lock was granted.
   */
  lemma Serialisable(s0: State, es: seq<Event>, sid: Sid)
    requires Initial(s0) && ValidRun(s0, es) && ProtectedRun(s0, es, sid)
    ensures BlobAt(Exec(s0, es), sid) == Sequentially(BlobAt(s0, sid), History(s0, es, sid))
    ensures InLockOrder(History(s0, es, sid))
  {
    InitialInv(s0);
    SerialFrom(s0, es, sid);
    TurnsOrdered(s0, es, sid);
  }

  // ----- requests that get their lock and close in time

  /**
    What it takes of the requests for `sid`: each gets its lock (`set_nx` answers
    1 in the end, and the sid can be recorded), none outlives the TTL while it
    tracks the lock, and none destroys the session.
   */
  ghost predicate Served(s: State, e: Event, sid: Sid)
    requires Enabled(s, e)
  {
    match e
    case TrySetNx(t, fate) => s.threads[t].pc == Trying(sid) ==> fate.Answered? || fate.Refused?
    case GiveUp(t) => s.threads[t].pc != Trying(sid)
    case TrackOom(t, _) => s.threads[t].pc != Granted(sid)
    case Destroy(_, sid', _) => sid' != sid
    case Tick(ms) => forall t | Alive(s, t) && Tracks(s.threads[t], sid) :: s.now + ms < s.threads[t].since + TTL
    case _ => true
  }

  ghost predicate ServedRun(s: State, es: seq<Event>, sid: Sid)
    requires ValidRun(s, es)
    decreases |es|
  {
    es == [] || (Served(s, es[0], sid) && ServedRun(Apply(s, es[0]), es[1..], sid))
  }

  /** Inside the session means holding its lock. */
  predicate Inside(s: State, t: Tid, sid: Sid)
    requires t in s.threads
  {
    var th := s.threads[t];
    && (th.pc == Fetching(sid) || th.pc == Open(sid) ==> th.held == Some(sid))
    && (Tracks(th, sid) ==> Holds(s, t, sid))
    && th.pc != Destroying(sid)
  }

  lemma InsideStep(s: State, e: Event, t: Tid, sid: Sid)
    requires Enabled(s, e) && Served(s, e, sid) && Alive(s, t) && Inside(s, t, sid) && OwnToken(s, t)
    ensures Alive(Apply(s, e), t) ==> Inside(Apply(s, e), t, sid)
  {
    StepFrame(s, e, t);
  }

  lemma {:induction false} ServedIsProtected(s: State, es: seq<Event>, sid: Sid)
    requires Inv(s) && ValidRun(s, es) && ServedRun(s, es, sid)
    requires forall t | Alive(s, t) :: Inside(s, t, sid)
    ensures ProtectedRun(s, es, sid)
    decreases |es|
  {
    if es != [] {
      var s' := Apply(s, es[0]);
      InvStep(s, es[0]);
      forall t | Alive(s', t) ensures Inside(s', t, sid) {
        StepFrame(s, es[0], t);
        assert OwnToken(s, t);
        StillAlive(s, es[0], t);
        InsideStep(s, es[0], t, sid);
      }
      ServedIsProtected(s', es[1..], sid);
    }
  }

  lemma StillAlive(s: State, e: Event, t: Tid)
    requires Enabled(s, e) && Alive(Apply(s, e), t)
    ensures Alive(s, t)
  {
    StepFrame(s, e, t);
  }

  /**
    The promise in terms of requests: in every interleaving in which every request
    for `sid` gets the lock and closes within the TTL, no update is lost and the
    stored blob is their sequential application in lock order.
   */
  lemma ServedSerialisable(s0: State, es: seq<Event>, sid: Sid)
    requires Initial(s0) && ValidRun(s0, es) && ServedRun(s0, es, sid)
    ensures BlobAt(Exec(s0, es), sid) == Sequentially(BlobAt(s0, sid), History(s0, es, sid))
    ensures InLockOrder(History(s0, es, sid))
  {
    InitialInv(s0);
    ServedIsProtected(s0, es, sid);
    Serialisable(s0, es, sid);
  }
}
