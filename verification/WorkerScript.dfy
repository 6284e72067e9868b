/**
  What a worker-mode script does and what it is shown, as functions of its calls.
  Iterations are numbered from 1; iteration `g` serves `taken[g - 1]`.
 */
module WorkerScript {
  import opened Bailout
  import opened Options

  datatype Field = ServerVars | Headers | Cookies | Query

  type Table = map<string, string>

  datatype Request = Request(data: map<Field, string>, body: seq<int>)

  /** The Envelope object: its generation stamp, the arrays it has built, and which iteration made it. */
  datatype Envelope = Envelope(generation: nat, cached: map<Field, Table>, origin: nat)

  /** A `bodyStream()` resource: the generation it was opened under, and that iteration. */
  datatype Stream = Stream(generation: nat, origin: nat)

  /** How far `send_response_stream` gets; a bailout in the stream's own reader cuts it short. */
  datatype Streaming = NotStarted | Finished | CutShort

  /** What the worker script does. */
  datatype Call =
    | Take(next: Option<Request>, bails: bool)
    | Access(envelope: nat, field: Field)
    | OpenStream
    | ReadStream(stream: nat, amount: nat)
    | Send
    | SendStream(how: Streaming)
    | Happens(event: Event)

  /** The script comes back, or a bailout jumps past `php_execute_script`. */
  datatype End = Returned | Jumped

  /** What a call showed the script: nothing, an array, or bytes read at an offset of the body. */
  datatype Seen =
    | Nothing
    | Accessed(envelope: nat, field: Field, table: Table)
    | Read(stream: nat, bytes: seq<int>, at: nat, iteration: nat)

  // ----- what the script does, as one span

  /** A bailout out of the call, which ends the script. */
  predicate Jumps(c: Call) {
    (c.Take? && c.next.Some? && c.bails) || c == SendStream(CutShort)
  }

  predicate JumpsEnd(script: seq<Call>) {
    forall i | 0 <= i < |script| - 1 :: !Jumps(script[i])
  }

  /** The script ended in the middle of a streamed response. */
  predicate Cut(script: seq<Call>) {
    script != [] && script[|script| - 1] == SendStream(CutShort)
  }

  function EventOf(c: Call): Option<Event> {
    if Jumps(c) then Some(Bail(false)) else if c.Happens? then Some(c.event) else None
  }

  /** The engine's events of the one span that a worker script is. */
  function Events(script: seq<Call>): Trace
    decreases |script|
  {
    if script == [] then []
    else
      var n := |script| - 1;
      Events(script[..n]) + match EventOf(script[n]) { case Some(e) => [e] case None => [] }
  }

  /** Whether the last error since the last request was taken is fatal. */
  function FatalSince(script: seq<Call>, before: bool): bool
    decreases |script|
  {
    if script == [] then before
    else
      match script[|script| - 1]
      case Take(_, _) => false
      case Happens(Error(fatal)) => fatal
      case _ => FatalSince(script[..|script| - 1], before)
  }

  /** The status set since the last request was taken, which starts with 200. */
  function StatusSince(script: seq<Call>, before: int): int
    decreases |script|
  {
    if script == [] then before
    else
      match script[|script| - 1]
      case Take(_, _) => 200
      case Happens(SetStatus(code)) => code
      case _ => StatusSince(script[..|script| - 1], before)
  }

  /** Whether a request is in flight after `c`. */
  function Flying(c: Call, before: bool, installed: bool): bool {
    match c
    case Take(next, _) => next.Some?
    case Send => !installed && before
    case SendStream(Finished) => false
    case _ => before
  }

  /** The script's last word on its last request: taken and not yet fully answered. */
  function InFlightAfter(script: seq<Call>, installed: bool): bool
    decreases |script|
  {
    script != [] && Flying(script[|script| - 1], InFlightAfter(script[..|script| - 1], installed), installed)
  }

  /** The script answers each request before it takes the next. */
  predicate Orderly(script: seq<Call>, installed: bool) {
    forall i | 0 <= i < |script| && script[i].Take? :: !InFlightAfter(script[..i], installed)
  }

  function TakenBy(c: Call): seq<Request> {
    if c.Take? && c.next.Some? then [c.next.value] else []
  }

  /** The requests the script takes, in order. */
  function Requests(script: seq<Call>): seq<Request>
    decreases |script|
  {
    if script == [] then [] else Requests(script[..|script| - 1]) + TakenBy(script[|script| - 1])
  }

  lemma RequestsSnoc(script: seq<Call>, n: nat)
    requires n < |script|
    ensures Requests(script[..n + 1]) == Requests(script[..n]) + TakenBy(script[n])
  {
    assert script[..n + 1][..n] == script[..n];
  }

  lemma OrderlySnoc(script: seq<Call>, n: nat, installed: bool)
    requires n < |script|
    ensures Orderly(script[..n + 1], installed)
       <==> Orderly(script[..n], installed) && !(script[n].Take? && InFlightAfter(script[..n], installed))
  {
    var longer, shorter := script[..n + 1], script[..n];
    assert forall i | 0 <= i < n :: longer[i] == shorter[i] && longer[..i] == shorter[..i];
    assert longer[n] == script[n] && longer[..n] == shorter;
  }

  lemma InFlightSnoc(script: seq<Call>, n: nat, installed: bool)
    requires n < |script|
    ensures InFlightAfter(script[..n + 1], installed) == Flying(script[n], InFlightAfter(script[..n], installed), installed)
  {
    assert script[..n + 1][..n] == script[..n];
  }

  /**
    What the script can look at: how many requests were taken and Envelopes handed
    out, the iteration each stream belongs to, the request behind the newest
    Envelope, and the body of the request taken last.
   */
  datatype Moment = Moment(iteration: nat, envelopes: nat, streams: seq<nat>, lazy: Option<Request>, body: seq<int>)

  function Later(m: Moment, c: Call): Moment {
    match c
    case Take(None, _) => m.(lazy := None)
    case Take(Some(r), bails) =>
      Moment(m.iteration + 1, if bails then m.envelopes else m.envelopes + 1, m.streams, if bails then None else Some(r), r.body)
    case OpenStream => if m.envelopes == 0 then m else m.(streams := m.streams + [m.iteration])
    case _ => m
  }

  /** The moment after `script`. */
  function At(script: seq<Call>, start: Moment): Moment
    decreases |script|
  {
    if script == [] then start else Later(At(script[..|script| - 1], start), script[|script| - 1])
  }

  lemma AtSnoc(script: seq<Call>, n: nat, start: Moment)
    requires n < |script|
    ensures At(script[..n + 1], start) == Later(At(script[..n], start), script[n])
  {
    assert script[..n + 1][..n] == script[..n];
  }

  /**
    What call `c` has to show at moment `m`. Every call on an object that is there
    shows something. The Envelope of the request taken last has its data until the
    next one is taken. A stream of the request in flight yields as much of the body
    as is asked for and left.
   */
  predicate Shows(x: Seen, c: Call, m: Moment, flying: bool, build: (Field, Request) -> Table) {
    match c
    case Access(e, f) =>
      if e >= m.envelopes then x == Nothing
      else
        && x.Accessed? && x.envelope == e && x.field == f
        && (e == m.envelopes - 1 && m.lazy.Some? ==> x.table == build(f, m.lazy.value))
    case ReadStream(k, amount) =>
      if k >= |m.streams| then x == Nothing
      else
        && x.Read? && x.stream == k && x.iteration == m.iteration
        && (flying && m.streams[k] == m.iteration ==>
              x.at <= |m.body| && |x.bytes| == if amount < |m.body| - x.at then amount else |m.body| - x.at)
    case _ => x == Nothing
  }

  /** Every call of the script so far showed what it had to. */
  predicate AllShown(log: seq<Seen>, script: seq<Call>, start: Moment, installed: bool, build: (Field, Request) -> Table) {
    && |log| <= |script|
    && forall i | 0 <= i < |log| ::
         Shows(log[i], script[i], At(script[..i], start), InFlightAfter(script[..i], installed), build)
  }

  function BytesIn(x: Seen): seq<int> { if x.Read? then x.bytes else [] }

  /** How much of the body of iteration `g` was read. */
  function ReadIn(log: seq<Seen>, g: nat): nat
    decreases |log|
  {
    if log == [] then 0
    else
      var x := log[|log| - 1];
      ReadIn(log[..|log| - 1], g) + if x.Read? && x.iteration == g then |x.bytes| else 0
  }

  lemma ReadInSnoc(log: seq<Seen>, x: Seen, g: nat)
    ensures ReadIn(log + [x], g) == ReadIn(log, g) + if x.Read? && x.iteration == g then |x.bytes| else 0
  {
    assert (log + [x])[..|log|] == log;
  }

  lemma {:induction false} ReadInNone(log: seq<Seen>, g: nat)
    requires forall i | 0 <= i < |log| && log[i].Read? :: log[i].iteration < g
    ensures ReadIn(log, g) == 0
    decreases |log|
  {
    if log != [] {
      ReadInNone(log[..|log| - 1], g);
    }
  }

  /** Reads follow each other: each starts where the ones before it left off. `n0` requests were taken before the script. */
  predicate InSequence(log: seq<Seen>, n0: nat) {
    forall i | 0 <= i < |log| && log[i].Read? && log[i].iteration > n0 :: log[i].at == ReadIn(log[..i], log[i].iteration)
  }

  lemma InSequenceSnoc(log: seq<Seen>, x: Seen, n0: nat)
    requires InSequence(log, n0) && (x.Read? && x.iteration > n0 ==> x.at == ReadIn(log, x.iteration))
    ensures InSequence(log + [x], n0)
  {
    forall i | 0 <= i <= |log| && (log + [x])[i].Read? && (log + [x])[i].iteration > n0
      ensures (log + [x])[i].at == ReadIn((log + [x])[..i], (log + [x])[i].iteration)
    {
      assert (log + [x])[..i] == log[..i];
      assert log[..|log|] == log;
    }
  }

  /** How much of the current body the log accounts for, after `n` requests with `read` bytes of the last body read. */
  predicate Accounted(log: seq<Seen>, n0: nat, n: nat, read: nat) {
    && (n > n0 ==> ReadIn(log, n) == read)
    && forall i | 0 <= i < |log| && log[i].Read? :: log[i].iteration <= n
  }

  lemma AccountedSnoc(log: seq<Seen>, x: Seen, n0: nat, n: nat, n': nat, read: nat, read': nat)
    requires Accounted(log, n0, n, read) && (x.Read? ==> x.iteration == n == n' && x.at == read)
    requires n <= n' && read' == if n' > n then 0 else read + |BytesIn(x)|
    ensures Accounted(log + [x], n0, n', read')
    ensures x.Read? && x.iteration > n0 ==> x.at == ReadIn(log, x.iteration)
  {
    ReadInSnoc(log, x, n');
    if n' > n {
      ReadInNone(log, n');
    }
  }

  lemma AllShownSnoc(log: seq<Seen>, x: Seen, script: seq<Call>, start: Moment, installed: bool, build: (Field, Request) -> Table)
    requires AllShown(log, script, start, installed, build) && |log| < |script|
    requires var n := |log|; Shows(x, script[n], At(script[..n], start), InFlightAfter(script[..n], installed), build)
    ensures AllShown(log + [x], script, start, installed, build)
  {
  }

  /** The engine after `script`, as the code's flags have it; `g` is the engine before. */
  predicate Told(g: Engine, script: seq<Call>, g': Engine) {
    && g'.unclean == Bails(Events(script)) && g'.exitUnwound == Vouches(Events(script))
    && g'.lastFatal == FatalSince(script, g.lastFatal) && g'.status == StatusSince(script, g.status)
  }

  /** What one call does to the engine. */
  function AfterCall(g: Engine, c: Call): Engine {
    var g' := if c.Take? then g.(lastFatal := false, status := 200) else g;
    match EventOf(c) case Some(e) => Feed(g', e) case None => g'
  }

  lemma EventsSnoc(script: seq<Call>, n: nat)
    requires n < |script|
    ensures EventOf(script[n]).Some? ==> Events(script[..n + 1]) == Events(script[..n]) + [EventOf(script[n]).value]
    ensures EventOf(script[n]).None? ==> Events(script[..n + 1]) == Events(script[..n])
  {
    assert script[..n + 1][..n] == script[..n];
    assert Events(script[..n]) + [] == Events(script[..n]);
  }

  lemma SinceSnoc(g: Engine, script: seq<Call>, n: nat, g': Engine)
    requires n < |script|
    requires g'.lastFatal == FatalSince(script[..n], g.lastFatal) && g'.status == StatusSince(script[..n], g.status)
    ensures AfterCall(g', script[n]).lastFatal == FatalSince(script[..n + 1], g.lastFatal)
    ensures AfterCall(g', script[n]).status == StatusSince(script[..n + 1], g.status)
  {
    assert script[..n + 1][..n] == script[..n];
  }

  lemma ToldSnoc(g: Engine, script: seq<Call>, n: nat, g': Engine)
    requires n < |script| && Told(g, script[..n], g')
    ensures Told(g, script[..n + 1], AfterCall(g', script[n]))
  {
    EventsSnoc(script, n);
    SinceSnoc(g, script, n, g');
    if EventOf(script[n]).Some? {
      var g1 := if script[n].Take? then g'.(lastFatal := false, status := 200) else g';
      FlagsSnoc(g1, Events(script[..n]), EventOf(script[n]).value);
    }
  }

  // ----- generations wrap

  /** The generation counter after `n` increments, with `modulus` values. */
  function Stamp(n: nat, modulus: nat): nat {
    if n == 0 then 0
    else if Stamp(n - 1, modulus) + 1 == modulus then 0
    else Stamp(n - 1, modulus) + 1
  }

  lemma {:induction false} StampValue(n: nat, modulus: nat)
    requires modulus > 0
    ensures Stamp(n, modulus) == n % modulus
  {
    if n > 0 {
      StampValue(n - 1, modulus);
      var q, r := (n - 1) / modulus, (n - 1) % modulus;
      assert n == q * modulus + (r + 1);
      if r + 1 < modulus {
        Remainder(q, modulus, r + 1);
      } else {
        assert n == (q + 1) * modulus + 0;
        Remainder(q + 1, modulus, 0);
      }
    } else {
      Remainder(0, modulus, 0);
    }
  }

  lemma Remainder(k: int, m: nat, r: nat)
    requires r < m
    ensures (k * m + r) % m == r
  {
    var n := k * m + r;
    var q := n / m;
    assert n == q * m + n % m;
    assert q < k ==> (q + 1) * m <= k * m;
    assert q > k ==> (k + 1) * m <= q * m;
  }

  /** Within one turn of the counter two iterations share a stamp only if they are the same. */
  lemma SameStamp(o: nat, g: nat, modulus: nat)
    requires 1 <= o <= g <= modulus && Stamp(o, modulus) == Stamp(g, modulus)
    ensures o == g
  {
    StampValue(o, modulus);
    StampValue(g, modulus);
    if o < modulus { Remainder(0, modulus, o); }
    if g < modulus { Remainder(0, modulus, g); } else { Remainder(1, modulus, 0); }
  }

  /** The stamp of an old iteration is current again exactly after whole turns of the counter. */
  lemma StaleLooksCurrent(o: nat, g: nat, modulus: nat)
    requires modulus > 0 && o <= g
    ensures Stamp(o, modulus) == Stamp(g, modulus) <==> (g - o) % modulus == 0
  {
    SameStampApart(o, g, modulus);
    StampValue(g - o, modulus);
  }

  lemma {:induction false} SameStampApart(o: nat, g: nat, modulus: nat)
    requires o <= g
    ensures Stamp(o, modulus) == Stamp(g, modulus) <==> Stamp(g - o, modulus) == 0
  {
    if o > 0 {
      SameStampApart(o - 1, g - 1, modulus);
    }
  }

  // ----- histories

  /** Old objects are still there, and an array once built stays as it is. */
  predicate Kept(old': seq<Envelope>, new': seq<Envelope>) {
    && |old'| <= |new'|
    && forall i | 0 <= i < |old'| ::
         && new'[i].origin == old'[i].origin && new'[i].generation == old'[i].generation
         && forall f <- old'[i].cached :: f in new'[i].cached && new'[i].cached[f] == old'[i].cached[f]
  }

  /** The arrays cached so far are the envelope's own request's, or empty. */
  predicate Faithful(e: Envelope, r: Request, build: (Field, Request) -> Table) {
    forall f <- e.cached :: e.cached[f] == map[] || e.cached[f] == build(f, r)
  }

  /** Stamped by its iteration, and faithful to it as long as the counter has not wrapped. */
  predicate EnvelopeOk(e: Envelope, taken: seq<Request>, modulus: nat, build: (Field, Request) -> Table) {
    && 1 <= e.origin <= |taken| && e.generation == Stamp(e.origin, modulus)
    && (|taken| <= modulus ==> Faithful(e, taken[e.origin - 1], build))
  }

  predicate EnvelopesOk(es: seq<Envelope>, taken: seq<Request>, modulus: nat, build: (Field, Request) -> Table) {
    forall i | 0 <= i < |es| :: EnvelopeOk(es[i], taken, modulus, build)
  }

  function Origins(ss: seq<Stream>): seq<nat> {
    seq(|ss|, i requires 0 <= i < |ss| => ss[i].origin)
  }

  predicate StreamsOk(ss: seq<Stream>, n: nat, modulus: nat) {
    forall i | 0 <= i < |ss| :: 1 <= ss[i].origin <= n && ss[i].generation == Stamp(ss[i].origin, modulus)
  }

  /** Every request taken is answered, dropped or still parked, and only one of these. */
  ghost predicate Ledger(n: nat, answered: set<nat>, dropped: set<nat>, pending: Option<nat>) {
    && (forall g: nat :: 1 <= g <= n <==> g in answered || g in dropped || pending == Some(g))
    && answered !! dropped
    && (pending.Some? ==> pending.value == n && n !in answered && n !in dropped)
  }

  function Parked(pending: Option<nat>): set<nat> {
    if pending.Some? then {pending.value} else {}
  }

  lemma LedgerTake(n: nat, answered: set<nat>, dropped: set<nat>, pending: Option<nat>)
    requires Ledger(n, answered, dropped, pending)
    ensures Ledger(n + 1, answered, dropped + Parked(pending), Some(n + 1))
  {
  }

  lemma LedgerAnswer(n: nat, answered: set<nat>, dropped: set<nat>, pending: Option<nat>)
    requires Ledger(n, answered, dropped, pending)
    ensures Ledger(n, answered + Parked(pending), dropped, None)
  {
  }

  /** A parked request is the last one, and has no answer. */
  lemma LedgerParked(n: nat, answered: set<nat>, dropped: set<nat>, pending: Option<nat>)
    requires Ledger(n, answered, dropped, pending)
    ensures pending.Some? ==> Parked(pending) == {n} && n !in answered
  {
  }

  /**
    With nothing dropped, the last request is the only one that can lack an answer.
    Being in flight says so, exactly unless a cut stream has used the channel up.
   */
  lemma LedgerSettled(n: nat, answered: set<nat>, pending: Option<nat>, inFlight: bool, cut: bool)
    requires Ledger(n, answered, {}, pending)
    requires if cut then pending == None else pending.Some? <==> inFlight
    ensures forall g: nat | 1 <= g <= n :: g in answered + Parked(pending)
    ensures (inFlight <==> n > 0 && n !in answered) <==> !(cut && inFlight)
  {
  }

  lemma StreamsTake(ss: seq<Stream>, n: nat, modulus: nat)
    requires StreamsOk(ss, n, modulus)
    ensures StreamsOk(ss, n + 1, modulus)
  {
  }

  lemma EnvelopesTake(es: seq<Envelope>, taken: seq<Request>, r: Request, modulus: nat, build: (Field, Request) -> Table)
    requires EnvelopesOk(es, taken, modulus, build)
    ensures EnvelopesOk(es, taken + [r], modulus, build)
    ensures EnvelopesOk(es + [Envelope(Stamp(|taken| + 1, modulus), map[], |taken| + 1)], taken + [r], modulus, build)
  {
    forall i | 0 <= i < |es| ensures EnvelopeOk(es[i], taken + [r], modulus, build) {
      assert EnvelopeOk(es[i], taken, modulus, build);
    }
  }

  /** What an accessor answers when nothing is cached. */
  function Fetched(e: Envelope, f: Field, generation: nat, lazy: Option<Request>, build: (Field, Request) -> Table): Table {
    if e.generation == generation && lazy.Some? then build(f, lazy.value) else map[]
  }

  lemma AccessKeeps(es: seq<Envelope>, i: nat, f: Field, lazy: Option<Request>,
                    taken: seq<Request>, modulus: nat, build: (Field, Request) -> Table)
    requires EnvelopesOk(es, taken, modulus, build) && i < |es| && f !in es[i].cached
    requires lazy.Some? ==> taken != [] && lazy.value == taken[|taken| - 1]
    ensures var t := Fetched(es[i], f, Stamp(|taken|, modulus), lazy, build);
            && (|taken| <= modulus ==> t == map[] || t == build(f, taken[es[i].origin - 1]))
            && EnvelopesOk(es[i := es[i].(cached := es[i].cached[f := t])], taken, modulus, build)
  {
    var e := es[i];
    assert EnvelopeOk(e, taken, modulus, build);
    var t := Fetched(e, f, Stamp(|taken|, modulus), lazy, build);
    if |taken| <= modulus && e.generation == Stamp(|taken|, modulus) {
      SameStamp(e.origin, |taken|, modulus);
    }
    assert EnvelopeOk(e.(cached := e.cached[f := t]), taken, modulus, build);
  }

  /** The worker's fields as one value. */
  datatype View = View(
    inFlight: bool, pending: Option<nat>, lazy: Option<Request>, envelopes: seq<Envelope>, streams: seq<Stream>,
    taken: seq<Request>, dropped: set<nat>, madeUp: set<nat>, drained: seq<int>, engine: Engine)

  function MomentOf(v: View): Moment {
    Moment(|v.taken|, |v.envelopes|, Origins(v.streams), v.lazy, if v.taken == [] then [] else v.taken[|v.taken| - 1].body)
  }

  /** As long as no stream was cut short, exactly the request in flight waits for its answer. */
  predicate Punctual(v: View) {
    v.dropped == {} && v.madeUp == {} && (v.pending.Some? <==> v.inFlight)
  }

  /** What call `c`, showing `x`, makes of the worker. */
  predicate Effect(v: View, c: Call, x: Seen, w: View, modulus: nat, installed: bool, build: (Field, Request) -> Table) {
    && w.madeUp == v.madeUp && w.engine == AfterCall(v.engine, c) && w.inFlight == Flying(c, v.inFlight, installed)
    && Kept(v.envelopes, w.envelopes) && v.streams <= w.streams && w.taken == v.taken + TakenBy(c)
    && Recorded(x, w.envelopes, w.streams, w.taken, modulus)
    && Shows(x, c, MomentOf(v), v.inFlight, build) && MomentOf(w) == Later(MomentOf(v), c)
    && w.drained == (if TakenBy(c) != [] then [] else v.drained + BytesIn(x)) && (x.Read? ==> x.at == |v.drained|)
    && (Punctual(v) && !(c.Take? && v.inFlight) ==>
          if c == SendStream(CutShort) then w.dropped == {} && w.pending == None else Punctual(w))
  }

  /** Where the calls have brought the worker: the engine, what can be looked at, and the requests taken. */
  predicate Follows(v: View, calls: seq<Call>, start: Moment, g: Engine, before: seq<Request>) {
    Told(g, calls, v.engine) && MomentOf(v) == At(calls, start) && v.taken == before + Requests(calls)
  }

  lemma FollowsSnoc(v: View, script: seq<Call>, n: nat, w: View, start: Moment, g: Engine, before: seq<Request>)
    requires n < |script| && Follows(v, script[..n], start, g, before)
    requires w.engine == AfterCall(v.engine, script[n]) && MomentOf(w) == Later(MomentOf(v), script[n])
    requires w.taken == v.taken + TakenBy(script[n])
    ensures Follows(w, script[..n + 1], start, g, before)
  {
    assert Told(g, script[..n + 1], w.engine) by { ToldSnoc(g, script, n, v.engine); }
    assert MomentOf(w) == At(script[..n + 1], start) by { AtSnoc(script, n, start); }
    assert w.taken == before + Requests(script[..n + 1]) by { RequestsSnoc(script, n); }
  }

  /** The log so far: true of the objects held, complete, with the reads in sequence, and with the current body accounted for. */
  predicate Logged(log: seq<Seen>, script: seq<Call>, start: Moment, v: View,
                   modulus: nat, installed: bool, build: (Field, Request) -> Table) {
    && AllRecorded(log, v.envelopes, v.streams, v.taken, modulus)
    && AllShown(log, script, start, installed, build)
    && InSequence(log, start.iteration)
    && start.iteration <= |v.taken| && Accounted(log, start.iteration, |v.taken|, |v.drained|)
  }

  lemma LoggedSnoc(log: seq<Seen>, x: Seen, script: seq<Call>, start: Moment, v: View, w: View,
                   modulus: nat, installed: bool, build: (Field, Request) -> Table)
    requires |log| < |script| && Logged(log, script, start, v, modulus, installed, build)
    requires Effect(v, script[|log|], x, w, modulus, installed, build)
    requires MomentOf(v) == At(script[..|log|], start) && v.inFlight == InFlightAfter(script[..|log|], installed)
    ensures Logged(log + [x], script, start, w, modulus, installed, build)
  {
    RecordedGrows(log, v.envelopes, w.envelopes, v.streams, w.streams, v.taken, w.taken, modulus);
    AllShownSnoc(log, x, script, start, installed, build);
    AccountedSnoc(log, x, start.iteration, |v.taken|, |w.taken|, |v.drained|, |w.drained|);
    InSequenceSnoc(log, x, start.iteration);
  }

  /** A call that answers, or an event in the engine, leaves everything else alone. */
  lemma RespondEffect(v: View, c: Call, w: View, modulus: nat, installed: bool, build: (Field, Request) -> Table)
    requires c.Send? || c.SendStream? || c.Happens?
    requires w == v.(inFlight := w.inFlight, pending := w.pending, engine := w.engine)
    requires w.engine == AfterCall(v.engine, c) && w.inFlight == Flying(c, v.inFlight, installed)
    requires Punctual(v) ==> if c == SendStream(CutShort) then w.pending == None else Punctual(w)
    ensures Effect(v, c, Nothing, w, modulus, installed, build)
  {
    assert v.taken + [] == v.taken && v.drained + [] == v.drained;
  }

  /** So does a call that only looks. */
  lemma LookEffect(v: View, c: Call, x: Seen, w: View, modulus: nat, installed: bool, build: (Field, Request) -> Table)
    requires c.Access? || c.OpenStream? || c.ReadStream?
    requires w == v.(envelopes := w.envelopes, streams := w.streams, drained := v.drained + BytesIn(x))
    requires Kept(v.envelopes, w.envelopes) && |w.envelopes| == |v.envelopes| && v.streams <= w.streams
    requires Origins(w.streams) == Later(MomentOf(v), c).streams
    requires Recorded(x, w.envelopes, w.streams, w.taken, modulus)
    requires Shows(x, c, MomentOf(v), v.inFlight, build) && (x.Read? ==> x.at == |v.drained|)
    ensures Effect(v, c, x, w, modulus, installed, build)
  {
    assert v.taken + [] == v.taken;
  }

  /** So does taking a request. */
  lemma TakeEffect(v: View, c: Call, w: View, modulus: nat, installed: bool, build: (Field, Request) -> Table)
    requires c.Take? && w.engine == AfterCall(v.engine, c) && w.inFlight == c.next.Some?
    requires w.madeUp == v.madeUp && w.streams == v.streams && w.taken == v.taken + TakenBy(c)
    requires Kept(v.envelopes, w.envelopes) && |w.envelopes| == |v.envelopes| + if c.next.Some? && !c.bails then 1 else 0
    requires w.lazy == if c.bails then None else c.next
    requires w.drained == if c.next.Some? then [] else v.drained
    requires if c.next.Some? then w.pending.Some? && w.dropped == v.dropped + Parked(v.pending)
             else w.pending == v.pending && w.dropped == v.dropped
    ensures Effect(v, c, Nothing, w, modulus, installed, build)
  {
    assert v.taken + [] == v.taken && v.drained + [] == v.drained;
  }

  /** A read from stream `k` of what is left in `reader`. */
  lemma ReadEffect(v: View, k: nat, amount: nat, bytes: seq<int>, reader: seq<int>, w: View,
                   modulus: nat, installed: bool, build: (Field, Request) -> Table)
    requires k < |v.streams| && StreamsOk(v.streams, |v.taken|, modulus)
    requires w == v.(drained := v.drained + bytes)
    requires v.inFlight ==> v.taken != [] && v.drained + reader == v.taken[|v.taken| - 1].body
    requires v.streams[k].origin == |v.taken| ==> |bytes| == if amount < |reader| then amount else |reader|
    requires bytes != [] && |v.taken| <= modulus ==>
               v.streams[k].origin == |v.taken| && Chunk(bytes, |v.drained|, v.taken[|v.taken| - 1].body)
    ensures Effect(v, ReadStream(k, amount), Read(k, bytes, |v.drained|, |v.taken|), w, modulus, installed, build)
  {
    KeptSelf(v.envelopes);
    LookEffect(v, ReadStream(k, amount), Read(k, bytes, |v.drained|, |v.taken|), w, modulus, installed, build);
  }

  lemma KeptSelf(es: seq<Envelope>)
    ensures Kept(es, es)
  {
  }

  lemma NotYetCut(script: seq<Call>, n: nat)
    requires JumpsEnd(script) && n < |script|
    ensures !Cut(script[..n]) && (Cut(script[..n + 1]) <==> script[n] == SendStream(CutShort))
  {
    assert n > 0 ==> script[..n][n - 1] == script[n - 1];
    assert script[..n + 1][n] == script[n];
  }

  /**
    It does happen: the script exits in the middle of a request, its exit is freed
    with no frame left, and a destructor streams the answer and is cut short. The
    bailout passes for the exit, so the run does not end with -2, and with the
    request still in flight a response is made up that nobody waits for.
   */
  lemma CutMayBeVouched(r: Request)
    ensures var script := [Take(Some(r), false), Happens(FreeExit(false)), SendStream(CutShort)];
            && JumpsEnd(script) && Cut(script) && !Unexplained(Events(script))
            && Orderly(script, true) && InFlightAfter(script, true) && Requests(script) == [r]
  {
    var script := [Take(Some(r), false), Happens(FreeExit(false)), SendStream(CutShort)];
    assert script[..0] == [] && script[..3] == script;
    VouchedCrash(r);
    assert Orderly(script, true) && InFlightAfter(script, true) && Requests(script) == [r] by {
      StepByStep(script, 0);
      StepByStep(script, 1);
      StepByStep(script, 2);
    }
  }

  lemma VouchedCrash(r: Request)
    ensures !Unexplained(Events([Take(Some(r), false), Happens(FreeExit(false)), SendStream(CutShort)]))
  {
    var script := [Take(Some(r), false), Happens(FreeExit(false)), SendStream(CutShort)];
    assert script[..0] == [] && script[..3] == script;
    var tr := Events(script);
    assert tr == [FreeExit(false), Bail(false)] by {
      EventsSnoc(script, 0);
      EventsSnoc(script, 1);
      EventsSnoc(script, 2);
    }
    assert tr[1].Bail? && FirstBail(tr) == 1 && tr[..1] == [FreeExit(false)];
  }

  lemma StepByStep(script: seq<Call>, n: nat)
    requires n < |script| && (script[n].Take? || script[n].Happens? || script[n] == SendStream(CutShort))
    ensures InFlightAfter(script[..n + 1], true) == if script[n].Take? then script[n].next.Some? else InFlightAfter(script[..n], true)
    ensures Orderly(script[..n], true) && !(script[n].Take? && InFlightAfter(script[..n], true)) ==> Orderly(script[..n + 1], true)
    ensures Requests(script[..n + 1]) == Requests(script[..n]) + TakenBy(script[n])
  {
    InFlightSnoc(script, n, true);
    OrderlySnoc(script, n, true);
    RequestsSnoc(script, n);
  }

  /** `bytes` is the part of `body` that starts at `at`. */
  predicate Chunk(bytes: seq<int>, at: nat, body: seq<int>) {
    at + |bytes| <= |body| && bytes == body[at..at + |bytes|]
  }

  /**
    Accessors answer with their own request's data or an empty array, and always
    with the same; a stream yields bytes of the body it was opened for and no other.
   */
  predicate Isolation(log: seq<Seen>, es: seq<Envelope>, ss: seq<Stream>,
                      taken: seq<Request>, build: (Field, Request) -> Table) {
    && (forall n | 0 <= n < |log| :: log[n].Accessed? ==>
          && log[n].envelope < |es| && 1 <= es[log[n].envelope].origin <= |taken|
          && (log[n].table == map[] || log[n].table == build(log[n].field, taken[es[log[n].envelope].origin - 1])))
    && (forall m, n | 0 <= m < n < |log| && log[m].Accessed? && log[n].Accessed? ::
          log[m].envelope == log[n].envelope && log[m].field == log[n].field ==> log[m].table == log[n].table)
    && (forall n | 0 <= n < |log| :: log[n].Read? && log[n].bytes != [] ==>
          && log[n].stream < |ss| && 1 <= ss[log[n].stream].origin <= |taken|
          && Chunk(log[n].bytes, log[n].at, taken[ss[log[n].stream].origin - 1].body))
  }

  lemma RecordedIsIsolated(log: seq<Seen>, es: seq<Envelope>, ss: seq<Stream>,
                           taken: seq<Request>, modulus: nat, build: (Field, Request) -> Table)
    requires AllRecorded(log, es, ss, taken, modulus)
    requires EnvelopesOk(es, taken, modulus, build) && |taken| <= modulus
    ensures Isolation(log, es, ss, taken, build)
  {
    forall n | 0 <= n < |log| && log[n].Accessed?
      ensures && log[n].envelope < |es| && 1 <= es[log[n].envelope].origin <= |taken|
              && (log[n].table == map[] || log[n].table == build(log[n].field, taken[es[log[n].envelope].origin - 1]))
    {
      assert Recorded(log[n], es, ss, taken, modulus);
      assert EnvelopeOk(es[log[n].envelope], taken, modulus, build);
    }
    forall m, n | 0 <= m < n < |log| && log[m].Accessed? && log[n].Accessed?
               && log[m].envelope == log[n].envelope && log[m].field == log[n].field
      ensures log[m].table == log[n].table
    {
      assert Recorded(log[m], es, ss, taken, modulus) && Recorded(log[n], es, ss, taken, modulus);
    }
    forall n | 0 <= n < |log| && log[n].Read? && log[n].bytes != []
      ensures && log[n].stream < |ss| && 1 <= ss[log[n].stream].origin <= |taken|
              && Chunk(log[n].bytes, log[n].at, taken[ss[log[n].stream].origin - 1].body)
    {
      assert Recorded(log[n], es, ss, taken, modulus);
    }
  }

  /**
    The status `st` of a response made up: 500 exactly if the script set it or a
    fatal error left the default in place, and otherwise what the script set.
   */
  predicate RightStatus(st: int, status: int, fatal: bool) {
    && (st == 500 <==> status == 500 || (fatal && (status <= 0 || status == 200)))
    && (st != 500 ==> st == if status <= 0 then 200 else status)
  }

  /** What the script saw is still what its objects hold; bytes came from the body of the stream's own iteration. */
  predicate Recorded(x: Seen, es: seq<Envelope>, ss: seq<Stream>, taken: seq<Request>, modulus: nat) {
    match x
    case Nothing => true
    case Accessed(i, f, t) => i < |es| && f in es[i].cached && es[i].cached[f] == t
    case Read(k, bytes, at, iteration) =>
      && k < |ss|
      && (|taken| <= modulus && bytes != [] ==>
            1 <= iteration <= |taken| && ss[k].origin == iteration && Chunk(bytes, at, taken[iteration - 1].body))
  }

  predicate AllRecorded(log: seq<Seen>, es: seq<Envelope>, ss: seq<Stream>, taken: seq<Request>, modulus: nat) {
    forall i | 0 <= i < |log| :: Recorded(log[i], es, ss, taken, modulus)
  }

  /** Later calls do not change what was seen. */
  lemma RecordedGrows(log: seq<Seen>, es: seq<Envelope>, es': seq<Envelope>, ss: seq<Stream>, ss': seq<Stream>,
                      taken: seq<Request>, taken': seq<Request>, modulus: nat)
    requires AllRecorded(log, es, ss, taken, modulus) && Kept(es, es') && ss <= ss' && taken <= taken'
    ensures AllRecorded(log, es', ss', taken', modulus)
  {
    forall i | 0 <= i < |log| ensures Recorded(log[i], es', ss', taken', modulus) {
      assert Recorded(log[i], es, ss, taken, modulus);
    }
  }
}
