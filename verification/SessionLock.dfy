/**
  The session lock of the native session save handler, as a transition system.

  Many PHP threads share one key-value store. `PS_READ` takes the lock entry of
  a session id with `set_nx` and a fresh token, `PS_CLOSE` gives it back with the
  compare-and-delete `del_if_eq`. One event below is one atomic step: a store
  operation, or a run of thread-local statements between two of them. Every
  choice the code does not make itself (what the store answers, whether memory
  is available, how much time passes) is an argument of the event, so a sequence
  of events is one interleaving, and "every run" is "every sequence".
 */
module SessionLock {
  import opened Options

  type Sid = string
  type Tid = nat
  type Token = nat
  type Blob = string
  type Update = Blob -> Blob

  /** Life of a lock entry in milliseconds. */
  const TTL := 30000

  /** A stored lock: the token of the acquisition that made it, and when it dies. */
  datatype Entry = Entry(token: Token, expires: nat)

  /** Where a thread stands inside the handler. */
  datatype Pc =
    | Idle                   // outside a session
    | Stale(sid: Sid)        // about to release a lock left over from another sid
    | NeedToken(sid: Sid)    // about to draw the token of this attempt
    | Trying(sid: Sid)       // in the set_nx loop
    | Granted(sid: Sid)      // left the loop with a grant, not yet recorded
    | Fetching(sid: Sid)     // about to read the blob
    | Open(sid: Sid)         // script running with the session loaded
    | Destroying(sid: Sid)   // PS_DESTROY between release and delete

  /**
    The thread-local globals of one PHP thread. `held` is `session_lock_sid`,
    `token` is `session_lock_token`, `local` is the script's copy of the blob.
    `confirmed`, `since` and `ticket` describe the acquisition: whether `set_nx`
    answered 1, when, and which grant of the whole run it was.
   */
  datatype Thread = Thread(
    pc: Pc, dead: bool, held: Option<Sid>, token: Token,
    confirmed: bool, since: nat, ticket: nat, local: Blob)

  /** Which thread drew a token, and for which session. */
  datatype Acquisition = Acquisition(tid: Tid, sid: Sid)

  /**
    `locks` and `data` are the store. `inflight` holds `set_nx` requests whose
    sender was told "outcome unknown" and that may still reach the owner.
    `escaped` collects the tokens whose clean-up was lost: the release did not
    reach the store, overtook its own request, or the thread was abandoned.
   */
  datatype State = State(
    now: nat,
    locks: map<Sid, Entry>,
    inflight: set<(Sid, Token)>,
    data: map<Sid, Blob>,
    threads: map<Tid, Thread>,
    issued: map<Token, Acquisition>,
    grants: nat,
    escaped: set<Token>)

  /** What becomes of one `set_nx` call. */
  datatype Fate =
    | Answered          // the store decides: 1 when no live entry is there, else 0
    | Refused           // 0 although no live entry is there (out of memory)
    | UnknownLanded     // -1, and the store had applied it like `Answered`
    | UnknownLost       // -1, and the store never sees it
    | UnknownInFlight   // -1, and it may reach the store later

  datatype Event =
    | StartRead(t: Tid, sid: Sid)
    | ReleaseStale(t: Tid, reached: bool)
    | DrawToken(t: Tid, token: Token)
    | TrySetNx(t: Tid, fate: Fate)
    | GiveUp(t: Tid)
    | Track(t: Tid)
    | TrackOom(t: Tid, reached: bool)
    | Fetch(t: Tid, sid: Sid)
    | Write(t: Tid, sid: Sid, update: Update, ok: bool)
    | Close(t: Tid, reached: bool)
    | Destroy(t: Tid, sid: Sid, reached: bool)
    | DestroyData(t: Tid, sid: Sid)
    | Bailout(t: Tid)
    | Abandon(t: Tid)
    | Tick(ms: nat)
    | Reap(sid: Sid)
    | Deliver(sid: Sid, token: Token)

  // ----- store operations

  predicate Live(s: State, sid: Sid) {
    sid in s.locks && s.now < s.locks[sid].expires
  }

  function DelIfEq(locks: map<Sid, Entry>, sid: Sid, token: Token): map<Sid, Entry> {
    if sid in locks && locks[sid].token == token then locks - {sid} else locks
  }

  function Insert(s: State, sid: Sid, token: Token): map<Sid, Entry> {
    if Live(s, sid) then s.locks else s.locks[sid := Entry(token, s.now + TTL)]
  }

  function BlobAt(s: State, sid: Sid): Blob {
    if sid in s.data then s.data[sid] else ""
  }

  // ----- threads

  function SetThread(s: State, t: Tid, th: Thread): State {
    s.(threads := s.threads[t := th])
  }

  /** The thread is answerable for a lock on `sid`: it releases it at PS_CLOSE. */
  predicate Tracks(th: Thread, sid: Sid) {
    th.pc == Granted(sid) || th.held == Some(sid)
  }

  predicate TracksAny(th: Thread) {
    th.pc.Granted? || th.held.Some?
  }

  /** A confirmed acquisition of `sid` that is not yet released and not yet TTL old. */
  predicate Holds(s: State, t: Tid, sid: Sid) {
    && t in s.threads
    && Tracks(s.threads[t], sid)
    && s.threads[t].confirmed
    && s.now < s.threads[t].since + TTL
  }

  /** `del_if_eq` with the thread's own token; `sid` is the lock being given up. */
  function Undo(s: State, t: Tid, sid: Sid, reached: bool, th': Thread): State
    requires t in s.threads
  {
    var tok := s.threads[t].token;
    s.(locks := if reached then DelIfEq(s.locks, sid, tok) else s.locks,
       escaped := s.escaped + (if reached && (sid, tok) !in s.inflight then {} else {tok}),
       threads := s.threads[t := th'])
  }

  /** `ephpm_session_lock_release`: a no-op without a tracked sid. */
  function Release(s: State, t: Tid, reached: bool, pc: Pc): State
    requires t in s.threads
  {
    var th := s.threads[t];
    match th.held
    case None => SetThread(s, t, th.(pc := pc))
    case Some(sid) => Undo(s, t, sid, reached, th.(held := None, confirmed := false, pc := pc))
  }

  /** One `set_nx` call of a thread in the loop for `sid`. */
  function SetNx(s: State, t: Tid, sid: Sid, fate: Fate): State
    requires t in s.threads
  {
    var th := s.threads[t];
    var unknown := th.(pc := Granted(sid), confirmed := false);
    match fate
    case Answered =>
      if Live(s, sid) then s
      else s.(locks := Insert(s, sid, th.token),
              threads := s.threads[t := th.(pc := Granted(sid), confirmed := true, since := s.now, ticket := s.grants)],
              grants := s.grants + 1)
    case Refused => s
    case UnknownLanded => SetThread(s.(locks := Insert(s, sid, th.token)), t, unknown)
    case UnknownLost => SetThread(s, t, unknown)
    case UnknownInFlight => SetThread(s.(inflight := s.inflight + {(sid, th.token)}), t, unknown)
  }

  // ----- the transition system

  predicate Alive(s: State, t: Tid) {
    t in s.threads && !s.threads[t].dead
  }

  predicate Enabled(s: State, e: Event) {
    match e
    case StartRead(t, _) => Alive(s, t) && (s.threads[t].pc.Idle? || s.threads[t].pc.Open?)
    case ReleaseStale(t, _) => Alive(s, t) && s.threads[t].pc.Stale?
    case DrawToken(t, tok) => Alive(s, t) && s.threads[t].pc.NeedToken? && tok !in s.issued
    case TrySetNx(t, _) => Alive(s, t) && s.threads[t].pc.Trying?
    case GiveUp(t) => Alive(s, t) && s.threads[t].pc.Trying?
    case Track(t) => Alive(s, t) && s.threads[t].pc.Granted?
    case TrackOom(t, _) => Alive(s, t) && s.threads[t].pc.Granted?
    case Fetch(t, sid) => Alive(s, t) && s.threads[t].pc == Fetching(sid)
    case Write(t, sid, _, _) => Alive(s, t) && s.threads[t].pc == Open(sid)
    case Close(t, _) => Alive(s, t) && (s.threads[t].pc.Idle? || s.threads[t].pc.Open?)
    case Destroy(t, _, _) => Alive(s, t) && (s.threads[t].pc.Idle? || s.threads[t].pc.Open?)
    case DestroyData(t, sid) => Alive(s, t) && s.threads[t].pc == Destroying(sid)
    case Bailout(t) => Alive(s, t) && (s.threads[t].pc.Fetching? || s.threads[t].pc.Open?)
    case Abandon(t) => Alive(s, t)
    case Tick(_) => true
    case Reap(sid) => sid in s.locks && !Live(s, sid)
    case Deliver(sid, tok) => (sid, tok) in s.inflight
  }

  function Apply(s: State, e: Event): State
    requires Enabled(s, e)
  {
    match e
    case StartRead(t, sid) =>
      var th := s.threads[t];
      SetThread(s, t, th.(pc := if th.held == Some(sid) then Fetching(sid)
                                else if th.held.Some? then Stale(sid) else NeedToken(sid)))
    case ReleaseStale(t, reached) => Release(s, t, reached, NeedToken(s.threads[t].pc.sid))
    case DrawToken(t, tok) =>
      var th := s.threads[t];
      SetThread(s, t, th.(pc := Trying(th.pc.sid), token := tok, confirmed := false))
      .(issued := s.issued[tok := Acquisition(t, th.pc.sid)])
    case TrySetNx(t, fate) => SetNx(s, t, s.threads[t].pc.sid, fate)
    case GiveUp(t) => SetThread(s, t, s.threads[t].(pc := Fetching(s.threads[t].pc.sid)))
    case Track(t) =>
      var th := s.threads[t];
      SetThread(s, t, th.(held := Some(th.pc.sid), pc := Fetching(th.pc.sid)))
    case TrackOom(t, reached) =>
      var th := s.threads[t];
      Undo(s, t, th.pc.sid, reached, th.(confirmed := false, pc := Fetching(th.pc.sid)))
    case Fetch(t, sid) => SetThread(s, t, s.threads[t].(local := BlobAt(s, sid), pc := Open(sid)))
    case Write(t, sid, update, ok) =>
      if !ok then s else
      var th := s.threads[t];
      var blob := update(th.local);
      SetThread(s.(data := s.data[sid := blob]), t, th.(local := blob))
    case Close(t, reached) => Release(s, t, reached, Idle)
    case Destroy(t, sid, reached) =>
      if s.threads[t].held == Some(sid) then Release(s, t, reached, Destroying(sid))
      else SetThread(s, t, s.threads[t].(pc := Destroying(sid)))
    case DestroyData(t, sid) => SetThread(s.(data := s.data - {sid}), t, s.threads[t].(pc := Idle))
    case Bailout(t) => SetThread(s, t, s.threads[t].(pc := Idle))
    case Abandon(t) =>
      var th := s.threads[t];
      SetThread(s, t, th.(dead := true)).(escaped := s.escaped + (if TracksAny(th) then {th.token} else {}))
    case Tick(ms) => s.(now := s.now + ms)
    case Reap(sid) => s.(locks := s.locks - {sid})
    case Deliver(sid, tok) => s.(locks := Insert(s, sid, tok), inflight := s.inflight - {(sid, tok)})
  }

  /** The whole sequence can be taken from `s`. */
  predicate ValidRun(s: State, es: seq<Event>)
    decreases |es|
  {
    es == [] || (Enabled(s, es[0]) && ValidRun(Apply(s, es[0]), es[1..]))
  }

  function Exec(s: State, es: seq<Event>): State
    requires ValidRun(s, es)
    decreases |es|
  {
    if es == [] then s else Exec(Apply(s, es[0]), es[1..])
  }

  /** A store with no locks, and threads that have not entered a session yet. */
  predicate Initial(s: State) {
    && s.locks == map[] && s.inflight == {} && s.issued == map[] && s.escaped == {}
    && forall t <- s.threads :: s.threads[t].pc == Idle && s.threads[t].held == None
  }

  /** A run can be extended by any step enabled where it ends. */
  lemma {:induction false} ExecSnoc(s: State, es: seq<Event>, e: Event)
    requires ValidRun(s, es) && Enabled(Exec(s, es), e)
    ensures ValidRun(s, es + [e]) && Exec(s, es + [e]) == Apply(Exec(s, es), e)
    decreases |es|
  {
    if es == [] {
      assert (es + [e])[0] == e && (es + [e])[1..] == [];
    } else {
      ExecSnoc(Apply(s, es[0]), es[1..], e);
      assert (es + [e])[1..] == es[1..] + [e];
    }
  }
}
