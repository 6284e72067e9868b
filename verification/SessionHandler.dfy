/**
  The save handler's own code, run by one thread while the others interfere.
  Every statement that touches shared state is one event of `SessionLock`, so
  whatever is proved about all runs holds for every state these methods leave.
 */
module SessionHandler {
  import opened Options
  import opened SessionLock
  import opened SessionLockSafety

  const MAX_WAIT_MS := 30000
  const BACKOFF_START_MS := 10
  const BACKOFF_MAX_MS := 100

  /** One sleep: all of it and perhaps more, or cut short by a signal and not resumed. */
  datatype Nap = Full(extra: nat) | Interrupted(after: nat)

  datatype Outcome = AlreadyHeld | Confirmed | Unconfirmed | OutOfMemory | GaveUp

  /** Sleep after attempt `k`, when the budget does not cut it short. */
  function Backoff(k: nat): nat {
    if k == 0 then BACKOFF_START_MS else if k == 1 then 20 else if k == 2 then 40 else if k == 3 then 80
    else BACKOFF_MAX_MS
  }

  /** Time asleep after `k` full sleeps. */
  function Slept(k: nat): nat {
    if k == 0 then 0 else if k == 1 then 10 else if k == 2 then 30 else if k == 3 then 70
    else 150 + BACKOFF_MAX_MS * (k - 4)
  }

  /** The backoff doubles up to its cap, the sleeps add up, and one that starts within the budget is at most the 303rd. */
  lemma Pacing(j: nat, k: nat)
    requires j <= k
    ensures Backoff(k + 1) == if 2 * Backoff(k) > BACKOFF_MAX_MS then BACKOFF_MAX_MS else 2 * Backoff(k)
    ensures Slept(k + 1) == Slept(k) + Backoff(k)
    ensures 1 <= Backoff(j) <= Backoff(k)
    ensures Slept(k) < MAX_WAIT_MS ==> k <= 302
  {
  }

  /** How many of the first `n` sleeps a signal cuts short. */
  function Cuts(nap: nat -> Nap, n: nat): nat {
    if n == 0 then 0 else Cuts(nap, n - 1) + if nap(n - 1).Interrupted? then 1 else 0
  }

  /** Only finitely many signals arrive. */
  ghost predicate AtMost(nap: nat -> Nap, signals: nat) {
    forall n: nat :: Cuts(nap, n) <= signals
  }

  lemma NextCut(nap: nat -> Nap, signals: nat, n: nat)
    requires AtMost(nap, signals)
    ensures Cuts(nap, n + 1) == Cuts(nap, n) + (if nap(n).Interrupted? then 1 else 0) <= signals
  {
  }

  /** After `k` attempts, `cuts` of them with an interrupted sleep, so much time has passed at least. */
  predicate Paced(k: nat, cuts: nat, waited: nat) {
    cuts <= k && k - cuts <= 303 && (waited < MAX_WAIT_MS ==> waited >= Slept(k - cuts))
  }

  lemma PacedStep(k: nat, cuts: nat, waited: nat, waited': nat, full: bool)
    requires Paced(k, cuts, waited) && waited < MAX_WAIT_MS && waited <= waited'
    requires full ==> waited' >= MAX_WAIT_MS || waited' >= waited + Backoff(k)
    ensures Paced(k + 1, if full then cuts else cuts + 1, waited')
  {
    Pacing(k - cuts, k);
    Pacing(k - cuts, k - cuts);
  }

  /** The answer decides: 1 is a confirmed grant, 0 is none, and "unknown" is one that is not confirmed. */
  predicate Obeys(fate: Fate, granted: bool, confirmed: bool) {
    match fate
    case Answered => granted ==> confirmed
    case Refused => !granted
    case _ => granted && !confirmed
  }

  /** The first `n` attempts were answered, and not with "unknown". */
  predicate Missed(fate: nat -> Fate, n: nat) {
    forall k: nat | k < n :: fate(k).Answered? || fate(k).Refused?
  }

  /** Nobody acts before the first attempt. */
  predicate Undisturbed(env: nat -> seq<Event>, gap: nat -> seq<Event>) {
    gap(0) == [] && gap(1) == [] && env(0) == []
  }

  /** What is left of the wait budget. */
  function Remaining(begin: nat, now: nat): nat {
    if now - begin < MAX_WAIT_MS then MAX_WAIT_MS - (now - begin) else 0
  }

  lemma StayAlive(s: State, e: Event, t: Tid)
    requires Enabled(s, e) && e != Abandon(t) && Alive(s, t)
    ensures Alive(Apply(s, e), t)
  {
    StepFrame(s, e, t);
  }

  /** `es` is a run from `s` to `s'`, step by step from its end. */
  ghost predicate Leads(s: State, es: seq<Event>, s': State)
    decreases |es|, 1
  {
    if es == [] then s == s' else LastStep(s, es, s')
  }

  ghost predicate LastStep(s: State, es: seq<Event>, s': State)
    requires es != []
    decreases |es|, 0
  {
    var n := |es| - 1;
    exists m :: Leads(s, es[..n], m) && Enabled(m, es[n]) && s' == Apply(m, es[n])
  }

  lemma LeadsOn(s: State, es: seq<Event>, m: State, e: Event)
    requires Leads(s, es, m) && Enabled(m, e)
    ensures Leads(s, es + [e], Apply(m, e))
  {
    assert (es + [e])[..|es|] == es;
    assert LastStep(s, es + [e], Apply(m, e));
  }

  /** It is a run of the protocol. */
  lemma {:induction false} LeadsIsRun(s: State, es: seq<Event>, s': State)
    requires Leads(s, es, s')
    ensures ValidRun(s, es) && Exec(s, es) == s'
    decreases |es|
  {
    if es != [] {
      var n := |es| - 1;
      assert LastStep(s, es, s');
      var m :| Leads(s, es[..n], m) && Enabled(m, es[n]) && s' == Apply(m, es[n]);
      LeadsIsRun(s, es[..n], m);
      ExecSnoc(s, es[..n], es[n]);
      assert es == es[..n] + [es[n]];
    }
  }

  class Handler {
    const me: Tid
    ghost const start: State
    ghost var trace: seq<Event>
    var world: State

    ghost predicate Valid()
      reads this
    {
      Leads(start, trace, world) && Alive(world, me) && Initial(start)
    }

    /** Every state the handler goes through is a reachable state of the protocol. */
    lemma AlwaysReachable()
      requires Valid()
      ensures Reachable(world)
    {
      LeadsIsRun(start, trace, world);
    }

    constructor (me: Tid, start: State)
      requires Alive(start, me) && Initial(start)
      ensures Valid() && this.me == me && this.start == start && world == start && trace == []
    {
      this.me := me;
      this.start := start;
      this.world := start;
      this.trace := [];
    }

    /** One atomic step. */
    method Step(e: Event)
      requires Valid() && Enabled(world, e) && e != Abandon(me)
      modifies this
      ensures Valid() && world == Apply(old(world), e) && trace == old(trace) + [e]
    {
      LeadsOn(start, trace, world, e);
      StayAlive(world, e, me);
      world := Apply(world, e);
      trace := trace + [e];
    }

    /** The other threads, the clock and the network take whatever steps of `es` are possible. */
    method Interfere(es: seq<Event>)
      requires Valid()
      modifies this
      ensures Valid() && old(trace) <= trace
      ensures world.threads[me] == old(world.threads[me]) && old(world.now) <= world.now
      ensures es == [] ==> world == old(world)
    {
      for i := 0 to |es|
        invariant Valid() && old(trace) <= trace
        invariant world.threads[me] == old(world.threads[me]) && old(world.now) <= world.now
        invariant i == 0 ==> world == old(world)
      {
        if Enabled(world, es[i]) && Actor(es[i]) != Some(me) {
          StepFrame(world, es[i], me);
          StepMonotone(world, es[i]);
          Step(es[i]);
        }
      }
    }

    /** Ready to lock `sid`: a lock for another session goes back first, then a token is drawn. */
    method Prepare(sid: Sid, unused: set<Token> -> Token, gap: nat -> seq<Event>, reached: bool) returns (already: bool)
      requires Valid() && (world.threads[me].pc.Idle? || world.threads[me].pc.Open?)
      requires forall used :: unused(used) !in used
      modifies this
      ensures Valid() && old(trace) <= trace && old(world.now) <= world.now
      ensures already <==> old(world.threads[me].held) == Some(sid)
      ensures already ==> world.threads[me].pc == Fetching(sid) && world.threads[me].held == Some(sid)
      ensures !already ==> world.threads[me].pc == Trying(sid) && world.threads[me].held == None
      ensures gap(0) == gap(1) == [] && !old(Live(world, sid)) ==> !Live(world, sid)
    {
      already := Enter(sid);
      if !already {
        Interfere(gap(0));
        LetGo(sid, reached);
        Interfere(gap(1));
        Draw(sid, unused);
      }
    }

    /** A second start of the same session finds its lock held already. */
    method Enter(sid: Sid) returns (already: bool)
      requires Valid() && (world.threads[me].pc.Idle? || world.threads[me].pc.Open?)
      modifies this
      ensures Valid() && old(trace) <= trace && world.now == old(world.now) && world.locks == old(world.locks)
      ensures world.threads[me].held == old(world.threads[me].held)
      ensures already <==> world.threads[me].held == Some(sid)
      ensures world.threads[me].pc == if already then Fetching(sid)
                                      else if world.threads[me].held.Some? then Stale(sid) else NeedToken(sid)
    {
      Step(StartRead(me, sid));
      already := world.threads[me].pc.Fetching?;
    }

    /** A lock left over from another session goes back. */
    method LetGo(sid: Sid, reached: bool)
      requires Valid() && world.threads[me].pc == if world.threads[me].held.Some? then Stale(sid) else NeedToken(sid)
      modifies this
      ensures Valid() && old(trace) <= trace && world.now == old(world.now)
      ensures world.threads[me].pc == NeedToken(sid) && world.threads[me].held == None
      ensures !old(Live(world, sid)) ==> !Live(world, sid)
      ensures reached ==> forall left <- world.locks | old(world.threads[me].held) == Some(left) ::
                            world.locks[left].token != old(world.threads[me].token)
    {
      if world.threads[me].pc.Stale? {
        Step(ReleaseStale(me, reached));
      }
    }

    /** A token that no acquisition has drawn yet. */
    method Draw(sid: Sid, unused: set<Token> -> Token)
      requires Valid() && world.threads[me].pc == NeedToken(sid) && world.threads[me].held == None
      requires forall used :: unused(used) !in used
      modifies this
      ensures Valid() && old(trace) <= trace && world.now == old(world.now) && world.locks == old(world.locks)
      ensures world.threads[me].pc == Trying(sid) && world.threads[me].held == None
      ensures world.threads[me].token !in old(world.issued)
    {
      Step(DrawToken(me, unused(world.issued.Keys)));
    }

    /** After an attempt for `sid`; a grant answered 1 is a lock held from this moment on. */
    ghost predicate Attempted(sid: Sid, granted: bool)
      reads this
    {
      && Valid() && world.threads[me].held == None
      && world.threads[me].pc == (if granted then Granted(sid) else Trying(sid))
      && (granted && world.threads[me].confirmed ==> Holds(world, me, sid) && world.threads[me].since == world.now)
    }

    /** One `set_nx`, after the others had their turn. */
    method Attempt(sid: Sid, interference: seq<Event>, fate: Fate) returns (granted: bool)
      requires Valid() && world.threads[me].pc == Trying(sid) && world.threads[me].held == None
      modifies this
      ensures Valid() && old(trace) <= trace && old(world.now) <= world.now
      ensures world.threads[me].held == None
      ensures Attempted(sid, granted) && Obeys(fate, granted, world.threads[me].confirmed)
      ensures fate.Answered? && !granted ==> Live(world, sid)
      ensures interference == [] ==> world.now == old(world.now)
      ensures fate.Answered? && interference == [] && !old(Live(world, sid)) ==> granted
    {
      Interfere(interference);
      Step(TrySetNx(me, fate));
      granted := world.threads[me].pc.Granted?;
    }

    /** `ephpm_sleep_ms`: at least as long as asked, unless a signal interrupts it. */
    method Sleep(ms: nat, nap: Nap)
      requires Valid()
      modifies this
      ensures Valid() && old(trace) <= trace && world.threads[me] == old(world.threads[me])
      ensures world.now == old(world.now) + match nap case Full(extra) => ms + extra case Interrupted(after) => if after < ms then after else ms
    {
      match nap {
        case Full(extra) => Step(Tick(ms + extra));
        case Interrupted(after) => Step(Tick(if after < ms then after else ms));
      }
    }

    /** One turn of the retry loop: an attempt and, after a miss within the budget, a sleep. */
    method Turn(sid: Sid, begin: nat, backoff: nat, interference: seq<Event>, fate: Fate, nap: Nap)
      returns (granted: bool, over: bool)
      requires Valid() && world.threads[me].pc == Trying(sid) && world.threads[me].held == None
      requires begin <= world.now && backoff >= 1
      modifies this
      ensures Valid() && old(trace) <= trace && world.threads[me].held == None
      ensures Attempted(sid, granted) && Obeys(fate, granted, world.threads[me].confirmed)
      ensures fate.Answered? && interference == [] && !old(Live(world, sid)) ==> granted
      ensures interference == [] && !granted && !over && nap == Full(0) ==>
                var left := MAX_WAIT_MS - (old(world.now) - begin);
                world.now - old(world.now) == if backoff < left then backoff else left
      ensures old(world.now) <= world.now && (over ==> world.now - begin >= MAX_WAIT_MS)
      ensures !granted && !over ==> old(world.now) - begin < MAX_WAIT_MS
      ensures !granted && !over && nap.Full? ==>
                && world.now > old(world.now)
                && (world.now - begin >= MAX_WAIT_MS || world.now >= old(world.now) + backoff)
    {
      over := false;
      granted := Attempt(sid, interference, fate);
      if granted {
        return;
      }
      var waited := world.now - begin;
      if waited >= MAX_WAIT_MS {
        over := true;
        return;
      }
      var pause := if backoff > MAX_WAIT_MS - waited then MAX_WAIT_MS - waited else backoff;
      Sleep(pause, nap);
    }

    /** In the retry loop for `sid`, after `k` attempts and with `cuts` sleeps cut short. */
    ghost predicate Waiting(sid: Sid, begin: nat, k: nat, cuts: nat, fate: nat -> Fate)
      reads this
    {
      && Valid() && world.threads[me].pc == Trying(sid) && world.threads[me].held == None
      && begin <= world.now && Paced(k, cuts, world.now - begin) && Missed(fate, k)
    }

    /** The loop is over with attempt `k`. */
    ghost predicate Concluded(sid: Sid, fate: nat -> Fate, k: nat, granted: bool)
      reads this
    {
      Attempted(sid, granted) && Obeys(fate(k), granted, world.threads[me].confirmed) && Missed(fate, k)
    }

    /** Turn `k` in step with the budget: without an end the time left or the signals left grow less. */
    method Round(sid: Sid, begin: nat, k: nat, env: nat -> seq<Event>, fate: nat -> Fate, nap: nat -> Nap,
                 ghost signals: nat, backoff: nat, ghost free: bool)
      returns (granted: bool, over: bool, next: nat)
      requires Waiting(sid, begin, k, Cuts(nap, k), fate) && backoff == Backoff(k) && AtMost(nap, signals)
      requires free ==> fate(k).Answered? && env(k) == [] && !Live(world, sid)
      modifies this
      ensures old(trace) <= trace && old(world.now) <= world.now && next == Backoff(k + 1)
      ensures Concluded(sid, fate, k, granted)
      ensures free ==> granted
      ensures over ==> world.now - begin >= MAX_WAIT_MS
      ensures !granted && !over ==> Waiting(sid, begin, k + 1, Cuts(nap, k + 1), fate)
      ensures !granted && !over ==>
                0 <= signals - Cuts(nap, k + 1) + Remaining(begin, world.now) < signals - Cuts(nap, k) + Remaining(begin, old(world.now))
      ensures k + 1 <= 304 + Cuts(nap, k + 1)
    {
      Pacing(k, k);
      NextCut(nap, signals, k);
      granted, over := Turn(sid, begin, backoff, env(k), fate(k), nap(k));
      next := if 2 * backoff > BACKOFF_MAX_MS then BACKOFF_MAX_MS else 2 * backoff;
      if !granted && !over {
        PacedStep(k, Cuts(nap, k), old(world.now) - begin, world.now - begin, nap(k).Full?);
      }
    }

    /** The retry loop from attempt `k` on. */
    method Retry(sid: Sid, begin: nat, k: nat, env: nat -> seq<Event>, fate: nat -> Fate, nap: nat -> Nap,
                 ghost signals: nat, pause: nat)
      returns (granted: bool, attempts: nat)
      requires Waiting(sid, begin, k, Cuts(nap, k), fate) && pause == Backoff(k) && AtMost(nap, signals)
      modifies this
      ensures old(trace) <= trace && old(world.now) <= world.now
      ensures !granted ==> world.now - begin >= MAX_WAIT_MS
      ensures k < attempts <= 304 + Cuts(nap, attempts) && Concluded(sid, fate, attempts - 1, granted)
    {
      attempts := k;
      var backoff := pause;
      while true
        invariant old(trace) <= trace && old(world.now) <= world.now && k <= attempts
        invariant Waiting(sid, begin, attempts, Cuts(nap, attempts), fate) && backoff == Backoff(attempts)
        decreases signals - Cuts(nap, attempts) + Remaining(begin, world.now)
      {
        var over;
        granted, over, backoff := Round(sid, begin, attempts, env, fate, nap, signals, backoff, false);
        attempts := attempts + 1;
        if granted || over {
          return;
        }
      }
    }

    /**
      The retry loop: exponential backoff from 10 ms, capped at 100 ms, and a
      budget of 30 s of wall time. It ends after at most 304 attempts and one more
      for every sleep that a signal cuts short, of which there are finitely many,
      and at the first attempt that is granted or answered with "unknown".
     */
    method Spin(sid: Sid, env: nat -> seq<Event>, fate: nat -> Fate, nap: nat -> Nap, ghost signals: nat)
      returns (granted: bool, attempts: nat)
      requires Valid() && world.threads[me].pc == Trying(sid) && world.threads[me].held == None
      requires AtMost(nap, signals)
      modifies this
      ensures old(trace) <= trace && old(world.now) <= world.now
      ensures !granted ==> world.now - old(world.now) >= 30_000
      ensures 1 <= attempts <= 304 + Cuts(nap, attempts) && Concluded(sid, fate, attempts - 1, granted)
      ensures fate(0).Answered? && env(0) == [] && !old(Live(world, sid)) ==> granted && attempts == 1
    {
      var begin, over, backoff := world.now, false, BACKOFF_START_MS;
      ghost var free := fate(0).Answered? && env(0) == [] && !Live(world, sid);
      granted, over, backoff := Round(sid, begin, 0, env, fate, nap, signals, backoff, free);
      attempts := 1;
      if !granted && !over {
        granted, attempts := Retry(sid, begin, 1, env, fate, nap, signals, backoff);
      }
    }

    /**
      `ephpm_session_lock_acquire`. The environment decides what happens before
      the `k`-th attempt and in the gaps between the other steps, what the store
      answers, and how long each sleep takes; `unused` yields a token no
      acquisition has drawn. A confirmed lock is held for as long as it is young.
     */
    method Acquire(sid: Sid, unused: set<Token> -> Token, env: nat -> seq<Event>, gap: nat -> seq<Event>,
                   fate: nat -> Fate, nap: nat -> Nap, ghost signals: nat, memory: bool, reached: bool)
      returns (outcome: Outcome)
      requires Valid() && (world.threads[me].pc.Idle? || world.threads[me].pc.Open?)
      requires forall used :: unused(used) !in used
      requires AtMost(nap, signals)
      modifies this
      ensures Valid() && old(trace) <= trace
      ensures world.threads[me].pc == Fetching(sid)
      ensures outcome == AlreadyHeld <==> old(world.threads[me].held) == Some(sid)
      ensures world.threads[me].held == if outcome.OutOfMemory? || outcome.GaveUp? then None else Some(sid)
      ensures outcome.Confirmed? && world.now < world.threads[me].since + TTL ==> Holds(world, me, sid)
      ensures outcome.Unconfirmed? ==> !world.threads[me].confirmed
      ensures outcome.GaveUp? ==> world.now - old(world.now) >= 30_000
      ensures outcome.OutOfMemory? ==> !memory && (reached && sid in world.locks ==> world.locks[sid].token != world.threads[me].token)
      ensures outcome.Confirmed? || outcome.Unconfirmed? ==> memory
      // a free session, and nobody in the way
      ensures old(world.threads[me].held != Some(sid) && !Live(world, sid)) && Undisturbed(env, gap) && fate(0).Answered? && memory ==>
                outcome == Confirmed
    {
      var already := Prepare(sid, unused, gap, reached);
      if already {
        return AlreadyHeld;
      }
      var granted, _ := Spin(sid, env, fate, nap, signals);
      Interfere(gap(2));
      outcome := Record(sid, granted, memory, reached);
    }

    /** What the loop came to: a grant is recorded, or undone if the sid cannot be copied. */
    method Record(sid: Sid, granted: bool, memory: bool, reached: bool) returns (outcome: Outcome)
      requires Valid() && world.threads[me].held == None
      requires world.threads[me].pc == if granted then Granted(sid) else Trying(sid)
      modifies this
      ensures Valid() && old(trace) <= trace && world.threads[me].pc == Fetching(sid) && world.now == old(world.now)
      ensures outcome == if !granted then GaveUp else if !memory then OutOfMemory
                         else if old(world.threads[me].confirmed) then Confirmed else Unconfirmed
      ensures world.threads[me].held == if granted && memory then Some(sid) else None
      ensures granted && memory ==> world.threads[me] == old(world.threads[me]).(held := Some(sid), pc := Fetching(sid))
      ensures granted && !memory && reached && sid in world.locks ==> world.locks[sid].token != world.threads[me].token
    {
      if !granted {
        Step(GiveUp(me));
        return GaveUp;
      }
      if !memory {
        Step(TrackOom(me, reached));
        return OutOfMemory;
      }
      Step(Track(me));
      return if world.threads[me].confirmed then Confirmed else Unconfirmed;
    }

    /** `PS_READ`: lock first, then read; a missing blob reads as the empty string. */
    method PsRead(sid: Sid, unused: set<Token> -> Token, env: nat -> seq<Event>, gap: nat -> seq<Event>,
                  fate: nat -> Fate, nap: nat -> Nap, ghost signals: nat, memory: bool, reached: bool)
      returns (blob: Blob, outcome: Outcome)
      requires Valid() && (world.threads[me].pc.Idle? || world.threads[me].pc.Open?)
      requires forall used :: unused(used) !in used
      requires AtMost(nap, signals)
      modifies this
      ensures Valid() && old(trace) <= trace
      ensures world.threads[me].pc == Open(sid) && world.threads[me].local == blob == BlobAt(world, sid)
      ensures outcome.Confirmed? && world.now < world.threads[me].since + TTL ==> Holds(world, me, sid)
    {
      outcome := Acquire(sid, unused, env, gap, fate, nap, signals, memory, reached);
      Interfere(gap(3));
      Step(Fetch(me, sid));
      blob := world.threads[me].local;
    }

    /** `PS_WRITE` of the script's copy after `update`; `ok` is the store's answer. */
    method PsWrite(sid: Sid, update: Update, ok: bool)
      requires Valid() && world.threads[me].pc == Open(sid)
      modifies this
      ensures Valid() && trace == old(trace) + [Write(me, sid, update, ok)]
      ensures BlobAt(world, sid) == if ok then update(old(world.threads[me].local)) else old(BlobAt(world, sid))
      ensures world.locks == old(world.locks) && forall other | other != sid :: BlobAt(world, other) == old(BlobAt(world, other))
    {
      Step(Write(me, sid, update, ok));
    }

    /** `PS_CLOSE`: gives the lock back when one is tracked, and is a no-op otherwise. */
    method PsClose(reached: bool)
      requires Valid() && (world.threads[me].pc.Idle? || world.threads[me].pc.Open?)
      modifies this
      ensures Valid() && trace == old(trace) + [Close(me, reached)]
      ensures world.threads[me].pc == Idle && world.threads[me].held == None
      ensures old(world.threads[me].held) == None ==> world.locks == old(world.locks)
      ensures reached ==> forall sid <- world.locks | old(world.threads[me].held) == Some(sid) ::
                            world.locks[sid].token != old(world.threads[me].token)
      ensures forall sid <- old(world.locks) | old(world.threads[me].held) != Some(sid) ::
                sid in world.locks && world.locks[sid] == old(world.locks)[sid]
      ensures world.data == old(world.data)
    {
      Step(Close(me, reached));
    }

    /** `PS_DESTROY`: gives back the lock of this session and no other, then deletes the blob. */
    method PsDestroy(sid: Sid, gap: seq<Event>, reached: bool)
      requires Valid() && (world.threads[me].pc.Idle? || world.threads[me].pc.Open?)
      modifies this
      ensures Valid() && old(trace) <= trace && world.threads[me].pc == Idle && BlobAt(world, sid) == ""
      ensures world.threads[me].held == if old(world.threads[me].held) == Some(sid) then None else old(world.threads[me].held)
      ensures gap == [] ==> forall other <- old(world.locks) | other != sid || old(world.threads[me].held) != Some(sid) ::
                              other in world.locks && world.locks[other] == old(world.locks)[other]
      ensures gap == [] && reached && sid in world.locks && old(world.threads[me].held) == Some(sid) ==>
                world.locks[sid].token != old(world.threads[me].token)
    {
      Step(Destroy(me, sid, reached));
      Interfere(gap);
      Step(DestroyData(me, sid));
    }
  }
}
