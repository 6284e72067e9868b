/**
  The worker-mode loop of one thread: take a request, read it through its
  Envelope and body stream, answer it, and answer it anyway when the script ends
  early. Iterations are numbered from 1; iteration `g` serves `taken[g - 1]`.
 */
module Worker {
  import opened Bailout
  import opened Options
  import opened WorkerScript

  class Worker {
    /** Number of values of the generation counter. */
    const modulus: nat
    /** The arrays the accessors build from the request data. */
    const build: (Field, Request) -> Table
    /** Whether the host installed its `send_response`. */
    const installed: bool
    // thread-local globals
    var inFlight: bool
    var generation: nat
    var lazy: Option<Request>
    // the host's side: the parked reply channel and the body reader
    var pending: Option<nat>
    var reader: seq<int>
    // objects the script holds
    var envelopes: seq<Envelope>
    var streams: seq<Stream>
    // history
    var taken: seq<Request>
    var answered: set<nat>
    var dropped: set<nat>
    var drained: seq<int>
    /** Requests answered by a response the script did not send. */
    var madeUp: set<nat>
    var engine: Engine

    /** No byte of a body is handed out twice or out of order, and none is lost while its request is in flight. */
    ghost predicate BodyOnce()
      reads this
    {
      && (if taken == [] then reader == [] && drained == [] && !inFlight else drained + reader <= taken[|taken| - 1].body)
      && (inFlight ==> drained + reader == taken[|taken| - 1].body)
    }

    /** The newest Envelope is the one of the request whose data is at hand, and has built nothing else. */
    ghost predicate AtHand()
      reads this
    {
      lazy.Some? ==>
        && envelopes != [] && envelopes[|envelopes| - 1].origin == |taken|
        && forall f <- envelopes[|envelopes| - 1].cached :: envelopes[|envelopes| - 1].cached[f] == build(f, lazy.value)
    }

    ghost function Here(): View
      reads this
    {
      View(inFlight, pending, lazy, envelopes, streams, taken, dropped, madeUp, drained, engine)
    }

    ghost function Now(): Moment
      reads this
    {
      MomentOf(Here())
    }

    ghost predicate Valid()
      reads this
    {
      && modulus > 0 && generation == Stamp(|taken|, modulus)
      && (lazy.Some? ==> taken != [] && lazy.value == taken[|taken| - 1])
      && EnvelopesOk(envelopes, taken, modulus, build)
      && StreamsOk(streams, |taken|, modulus)
      && Ledger(|taken|, answered + madeUp, dropped, pending) && answered !! madeUp
      && BodyOnce() && AtHand()
    }

    constructor (modulus: nat, build: (Field, Request) -> Table, installed: bool)
      requires modulus > 0
      ensures Valid() && this.modulus == modulus && this.build == build && this.installed == installed
      ensures taken == [] && envelopes == [] && streams == [] && !inFlight && pending == None
      ensures dropped == {} && madeUp == {}
    {
      this.modulus, this.build, this.installed := modulus, build, installed;
      inFlight, generation, lazy, pending := false, 0, None, None;
      reader, drained, envelopes, streams, taken, answered, dropped := [], [], [], [], [], {}, {};
      madeUp, engine := {}, Engine(false, false, false, 200);
    }

    /** `ephpm_worker_reset_request`, as far as requests and envelopes are concerned. */
    method Reset()
      requires Valid()
      modifies this`inFlight, this`lazy, this`engine
      ensures Valid() && !inFlight && lazy == None && engine == old(engine).(lastFatal := false, status := 200)
    {
      engine := engine.(lastFatal := false, status := 200);
      inFlight := false;
      lazy := None;
    }

    /** The host delivers a request: its reply channel and body replace whatever was parked, then the stamp moves on. */
    method Arrive(r: Request)
      requires Valid() && lazy == None
      modifies this`taken, this`dropped, this`pending, this`reader, this`drained, this`inFlight, this`generation
      ensures Valid() && inFlight && taken == old(taken) + [r] && pending == Some(|taken|)
      ensures dropped == old(dropped) + Parked(old(pending)) && reader == r.body && drained == []
    {
      LedgerTake(|taken|, answered + madeUp, dropped, pending);
      EnvelopesTake(envelopes, taken, r, modulus, build);
      StreamsTake(streams, |taken|, modulus);
      dropped := dropped + Parked(pending);
      taken := taken + [r];
      pending := Some(|taken|);
      reader := r.body;
      drained := [];
      inFlight := true;
      generation := if generation + 1 == modulus then 0 else generation + 1;
    }

    /** `take_request()`; `bails` is a bailout while the superglobals are rebuilt. */
    method TakeRequest(next: Option<Request>, bails: bool) returns (envelope: Option<nat>)
      requires Valid()
      modifies this
      ensures Valid() && Kept(old(envelopes), envelopes) && streams == old(streams)
      ensures answered == old(answered) && madeUp == old(madeUp)
      ensures engine == AfterCall(old(engine), Take(next, bails))
      ensures next.None? ==> !inFlight && taken == old(taken) && pending == old(pending) && dropped == old(dropped)
      ensures next.Some? ==> inFlight && taken == old(taken) + [next.value] && pending == Some(|taken|)
      ensures next.Some? ==> dropped == old(dropped) + Parked(old(pending))
      ensures envelope.Some? <==> next.Some? && !bails
      ensures envelope.Some? ==> envelope.value == |old(envelopes)| == |envelopes| - 1 && envelopes[envelope.value].origin == |taken|
      ensures envelope.None? ==> envelopes == old(envelopes)
      ensures lazy == if envelope.Some? then next else None
      ensures drained == if next.Some? then [] else old(drained)
    {
      Reset();
      if next.None? {
        return None;
      }
      Arrive(next.value);
      if bails {
        engine := Feed(engine, Bail(false));
        return None;
      }
      var i := HandOut(next.value);
      envelope := Some(i);
    }

    /** The new Envelope, with nothing built yet. */
    method HandOut(r: Request) returns (i: nat)
      requires Valid() && lazy == None && taken != [] && r == taken[|taken| - 1]
      modifies this`lazy, this`envelopes
      ensures Valid() && Kept(old(envelopes), envelopes)
      ensures i == |old(envelopes)| == |envelopes| - 1 && envelopes[i].origin == |taken|
      ensures lazy == Some(r) && envelopes[i].cached == map[]
    {
      lazy := Some(r);
      envelopes := envelopes + [Envelope(generation, map[], |taken|)];
      i := |envelopes| - 1;
    }

    /** `serverVars()`, `headers()`, `cookies()` and `query()`. */
    method AccessField(i: nat, f: Field) returns (t: Table)
      requires Valid() && i < |envelopes|
      modifies this`envelopes
      ensures Valid() && |envelopes| == |old(envelopes)| && Kept(old(envelopes), envelopes)
      ensures f in envelopes[i].cached && envelopes[i].cached[f] == t
      ensures f in old(envelopes)[i].cached ==> t == old(envelopes)[i].cached[f]
      ensures f !in old(envelopes)[i].cached ==>
                t == if lazy.Some? && Stamp(envelopes[i].origin, modulus) == Stamp(|taken|, modulus)
                     then build(f, taken[|taken| - 1]) else map[]
      ensures |taken| <= modulus ==> t == map[] || t == build(f, taken[envelopes[i].origin - 1])
      ensures lazy.Some? && i == |envelopes| - 1 ==> t == build(f, lazy.value)
    {
      var e := envelopes[i];
      if f in e.cached {
        assert EnvelopeOk(e, taken, modulus, build);
        return e.cached[f];
      }
      AccessKeeps(envelopes, i, f, lazy, taken, modulus, build);
      t := Fetched(e, f, generation, lazy, build);
      envelopes := envelopes[i := e.(cached := e.cached[f := t])];
    }

    /** `bodyStream()`. */
    method OpenBodyStream() returns (k: nat)
      requires Valid() && envelopes != []
      modifies this`streams
      ensures Valid() && streams == old(streams) + [Stream(generation, |taken|)] && k == |streams| - 1
    {
      assert EnvelopeOk(envelopes[0], taken, modulus, build);
      streams := streams + [Stream(generation, |taken|)];
      k := |streams| - 1;
    }

    /** A read from a body stream; `amount` is what the channel and the buffer allow. */
    method ReadBodyStream(k: nat, amount: nat) returns (bytes: seq<int>)
      requires Valid() && k < |streams|
      modifies this`reader, this`drained
      ensures Valid()
      ensures old(reader) == bytes + reader && drained == old(drained) + bytes
      ensures streams[k].origin == |taken| ==> |bytes| == if amount < |old(reader)| then amount else |old(reader)|
      ensures bytes != [] && |taken| <= modulus ==>
                && streams[k].origin == |taken|
                && Chunk(bytes, |old(drained)|, taken[|taken| - 1].body)
    {
      if streams[k].generation != generation {
        return [];
      }
      var n := if amount < |reader| then amount else |reader|;
      bytes := reader[..n];
      assert reader == bytes + reader[n..];
      assert drained + reader == (drained + bytes) + reader[n..];
      reader := reader[n..];
      drained := drained + bytes;
      if |taken| <= modulus {
        SameStamp(streams[k].origin, |taken|, modulus);
      }
    }

    /** The parked reply channel, if there is one, gets the script's answer. */
    method Answer()
      requires Valid()
      modifies this`answered, this`pending
      ensures Valid() && pending == None && answered == old(answered) + Parked(old(pending))
    {
      LedgerAnswer(|taken|, answered + madeUp, dropped, pending);
      assert (answered + madeUp) + Parked(pending) == (answered + Parked(pending)) + madeUp;
      answered := answered + Parked(pending);
      pending := None;
    }

    /** The response made up for a script that ended early goes the same way. */
    method Synthesize()
      requires Valid()
      modifies this`madeUp, this`pending, this`reader, this`inFlight
      ensures Valid() && !inFlight && pending == None && madeUp == old(madeUp) + Parked(old(pending)) && reader == []
    {
      LedgerAnswer(|taken|, answered + madeUp, dropped, pending);
      assert (answered + madeUp) + Parked(pending) == answered + (madeUp + Parked(pending));
      madeUp := madeUp + Parked(pending);
      pending := None;
      assert taken != [] ==> drained + [] <= drained + reader;
      reader := [];
      inFlight := false;
    }

    /** The host's `send_response`: the parked reply channel gets its answer, the body reader is released. */
    method Deliver()
      requires Valid()
      modifies this`answered, this`pending, this`reader, this`inFlight
      ensures Valid() && !inFlight && pending == None && answered == old(answered) + Parked(old(pending)) && reader == []
    {
      Answer();
      assert taken != [] ==> drained + [] <= drained + reader;
      reader := [];
      inFlight := false;
    }

    /** `send_response_stream()`; a stream cut short has used up the reply channel. */
    method SendAnswer(how: Streaming)
      requires Valid()
      modifies this`answered, this`pending, this`reader, this`inFlight, this`engine
      ensures Valid() && engine == AfterCall(old(engine), SendStream(how))
      ensures how.NotStarted? ==> inFlight == old(inFlight) && pending == old(pending) && answered == old(answered)
      ensures !how.NotStarted? ==> pending == None && answered == old(answered) + Parked(old(pending))
      ensures how.Finished? ==> !inFlight && reader == []
      ensures how.CutShort? ==> inFlight == old(inFlight)
    {
      match how {
        case NotStarted =>
        case Finished => Deliver();
        case CutShort =>
          Answer();
          engine := Feed(engine, Bail(false));
      }
    }

    ghost predicate OnTime()
      reads this
    {
      Punctual(Here())
    }

    /** An accessor called on Envelope `i`; calls on objects the script does not have are not calls. */
    method LookAt(i: nat, f: Field) returns (seen: Seen)
      requires Valid()
      modifies this`envelopes
      ensures Valid() && Effect(old(Here()), Access(i, f), seen, Here(), modulus, installed, build)
    {
      ghost var v := Here();
      KeptSelf(envelopes);
      seen := Nothing;
      if i < |envelopes| {
        var t := AccessField(i, f);
        seen := Accessed(i, f, t);
      }
      assert v.drained + BytesIn(seen) == v.drained;
      LookEffect(v, Access(i, f), seen, Here(), modulus, installed, build);
    }

    /** `bodyStream()`. */
    method LookForStream()
      requires Valid()
      modifies this`streams
      ensures Valid() && Effect(old(Here()), OpenStream, Nothing, Here(), modulus, installed, build)
    {
      ghost var v := Here();
      KeptSelf(envelopes);
      if envelopes != [] {
        var _ := OpenBodyStream();
        assert Origins(streams) == Origins(v.streams) + [|taken|];
      }
      assert v.drained + BytesIn(Nothing) == v.drained;
      LookEffect(v, OpenStream, Nothing, Here(), modulus, installed, build);
    }

    /** A read from stream `k`. */
    method LookInto(k: nat, amount: nat) returns (seen: Seen)
      requires Valid()
      modifies this`reader, this`drained
      ensures Valid() && Effect(old(Here()), ReadStream(k, amount), seen, Here(), modulus, installed, build)
    {
      ghost var v, left := Here(), reader;
      if k < |streams| {
        var at := |drained|;
        var bytes := ReadBodyStream(k, amount);
        seen := Read(k, bytes, at, |taken|);
        ReadEffect(v, k, amount, bytes, left, Here(), modulus, installed, build);
      } else {
        seen := Nothing;
        KeptSelf(envelopes);
        assert v.drained + BytesIn(seen) == v.drained;
        LookEffect(v, ReadStream(k, amount), seen, Here(), modulus, installed, build);
      }
    }

    /** A call of `send_response()`, as the script's account has it. */
    method DoSend()
      requires Valid()
      modifies this`answered, this`pending, this`reader, this`inFlight
      ensures Valid() && Effect(old(Here()), Send, Nothing, Here(), modulus, installed, build)
      ensures installed ==> reader == []
    {
      ghost var v := Here();
      if installed {
        Deliver();
      }
      RespondEffect(v, Send, Here(), modulus, installed, build);
    }

    /** A call of `send_response_stream()`. */
    method DoStream(how: Streaming)
      requires Valid()
      modifies this`answered, this`pending, this`reader, this`inFlight, this`engine
      ensures Valid() && Effect(old(Here()), SendStream(how), Nothing, Here(), modulus, installed, build)
    {
      ghost var v := Here();
      SendAnswer(how);
      RespondEffect(v, SendStream(how), Here(), modulus, installed, build);
    }

    /** Something happens in the engine. */
    method Happen(e: Event)
      requires Valid()
      modifies this`engine
      ensures Valid() && Effect(old(Here()), Happens(e), Nothing, Here(), modulus, installed, build)
    {
      ghost var v := Here();
      engine := Feed(engine, e);
      RespondEffect(v, Happens(e), Here(), modulus, installed, build);
    }

    /** A call of `take_request()`, as the script's account has it. */
    method DoTake(c: Call)
      requires Valid() && c.Take?
      modifies this
      ensures Valid() && Effect(old(Here()), c, Nothing, Here(), modulus, installed, build)
    {
      ghost var v := Here();
      var _ := TakeRequest(c.next, c.bails);
      assert taken == v.taken + TakenBy(c);
      TakeEffect(v, c, Here(), modulus, installed, build);
    }

    /** One call of the script. */
    method DoCall(c: Call) returns (seen: Seen)
      requires Valid()
      modifies this
      ensures Valid() && Effect(old(Here()), c, seen, Here(), modulus, installed, build)
    {
      seen := Nothing;
      match c {
        case Take(_, _) => DoTake(c);
        case Access(i, f) => seen := LookAt(i, f);
        case OpenStream => LookForStream();
        case ReadStream(k, amount) => seen := LookInto(k, amount);
        case Send => DoSend();
        case SendStream(how) => DoStream(how);
        case Happens(e) => Happen(e);
      }
    }

    /** Where the worker stands after `calls`: what is in flight, what waits, and what an orderly script has kept. */
    ghost predicate Stands(calls: seq<Call>)
      reads this
    {
      && Valid() && madeUp == {} && inFlight == InFlightAfter(calls, installed)
      && (Orderly(calls, installed) ==> if Cut(calls) then dropped == {} && pending == None else OnTime())
    }

    /** One more call: the account of what is in flight. */
    method Advance(script: seq<Call>, n: nat) returns (seen: Seen)
      requires n < |script| && JumpsEnd(script) && Stands(script[..n])
      modifies this
      ensures Stands(script[..n + 1]) && Effect(old(Here()), script[n], seen, Here(), modulus, installed, build)
    {
      NotYetCut(script, n);
      InFlightSnoc(script, n, installed);
      OrderlySnoc(script, n, installed);
      seen := DoCall(script[n]);
    }

    /** Everything that is known after the first `n` calls of a script that found the worker at `start`. */
    ghost predicate Along(script: seq<Call>, n: nat, log: seq<Seen>, start: Moment, g: Engine, before: seq<Request>)
      requires n <= |script|
      reads this
    {
      && Stands(script[..n]) && Follows(Here(), script[..n], start, g, before)
      && |log| == n && Logged(log, script, start, Here(), modulus, installed, build)
    }

    /** One more call, and its entry in the log. */
    method GoOn(script: seq<Call>, n: nat, log: seq<Seen>, ghost start: Moment, ghost g: Engine, ghost before: seq<Request>)
      returns (log': seq<Seen>)
      requires n < |script| && JumpsEnd(script) && Along(script, n, log, start, g, before)
      modifies this
      ensures Along(script, n + 1, log', start, g, before)
    {
      ghost var v := Here();
      var seen := Advance(script, n);
      FollowsSnoc(v, script, n, Here(), start, g, before);
      LoggedSnoc(log, seen, script, start, v, Here(), modulus, installed, build);
      log' := log + [seen];
    }

    lemma AlongStart(script: seq<Call>)
      requires Valid() && OnTime() && !inFlight && !engine.unclean && !engine.exitUnwound
      ensures Along(script, 0, [], Now(), engine, taken)
    {
      assert script[..0] == [];
    }

    lemma AlongEnd(script: seq<Call>, log: seq<Seen>, start: Moment, g: Engine, before: seq<Request>)
      requires Along(script, |script|, log, start, g, before)
      ensures Stands(script) && Told(g, script, engine) && taken == before + Requests(script)
      ensures |log| == |script| && Logged(log, script, start, Here(), modulus, installed, build)
      ensures |taken| <= modulus ==> Isolation(log, envelopes, streams, taken, build)
    {
      assert script[..|script|] == script;
      if |taken| <= modulus {
        RecordedIsIsolated(log, envelopes, streams, taken, modulus, build);
      }
    }

    /** The script's calls, one after the other. */
    method Drive(script: seq<Call>) returns (log: seq<Seen>)
      requires Valid() && OnTime() && !inFlight && JumpsEnd(script) && !engine.unclean && !engine.exitUnwound
      modifies this
      ensures Stands(script) && Told(old(engine), script, engine) && taken == old(taken) + Requests(script)
      ensures |log| == |script| && Logged(log, script, old(Now()), Here(), modulus, installed, build)
      ensures |taken| <= modulus ==> Isolation(log, envelopes, streams, taken, build)
    {
      ghost var start, g, before := Now(), engine, taken;
      log := [];
      AlongStart(script);
      for n := 0 to |script|
        invariant Along(script, n, log, start, g, before)
      {
        log := GoOn(script, n, log, start, g, before);
      }
      AlongEnd(script, log, start, g, before);
    }

    /**
      `ephpm_worker_run`: the script's calls, then its end, then the flush of the
      output buffers before a response is made up. `synthesized` is the status of
      that response.
     */
    method Run(script: seq<Call>, end: End, flush: Trace)
      returns (result: int, synthesized: Option<int>, log: seq<Seen>)
      requires Valid() && OnTime() && !inFlight && JumpsEnd(script)
      modifies this
      ensures Valid() && taken == old(taken) + Requests(script)
      // cut off: nothing is made up
      ensures result >= -2 && result != -1
      ensures result == -2 <==> end.Jumped? || Unexplained(Events(script))
      ensures result == -2 ==> synthesized == None && madeUp == {}
      // delivered: every request taken has an answer, the script's or the one made up for the last
      ensures result >= 0 && Orderly(script, installed) && installed ==> forall g: nat | 1 <= g <= |taken| :: g in answered || g in madeUp
      ensures result >= 0 && installed ==> (synthesized.Some? <==> InFlightAfter(script, installed))
      // made up exactly if the last request has no answer, exactly unless its own streamed answer was cut short
      ensures result >= 0 && Orderly(script, installed) && installed ==>
                ((synthesized.Some? <==> taken != [] && |taken| !in answered)
                 <==> !(Cut(script) && InFlightAfter(script, installed)))
      ensures madeUp != {} ==> synthesized.Some? && madeUp == {|taken|} && |taken| !in answered
      // with the right status
      ensures var fatal := FatalAfter(FatalSince(script, old(engine).lastFatal), flush);
              var status := StatusAfter(StatusSince(script, old(engine).status), flush);
              && (synthesized.Some? ==>
                    (synthesized.value == 500 <==> status == 500 || (fatal && (status <= 0 || status == 200))))
              && (synthesized.Some? && synthesized.value != 500 ==> synthesized.value == if status <= 0 then 200 else status)
              && (result >= 0 ==> result == if synthesized.None? then 0 else if fatal then 2 else 1)
      // isolated
      ensures AllRecorded(log, envelopes, streams, taken, modulus)
      ensures |taken| <= modulus ==> Isolation(log, envelopes, streams, taken, build)
      // and served: every call showed what it had to
      ensures |log| == |script| && AllShown(log, script, old(Now()), installed, build) && InSequence(log, old(|taken|))
    {
      ghost var start := Now();
      engine := engine.(unclean := false, exitUnwound := false);
      assert Now() == start;
      log := Drive(script);
      result, synthesized := Settle(script, end, flush);
    }

    /** The end of the script, against the account of its requests. */
    method Settle(script: seq<Call>, end: End, flush: Trace) returns (result: int, synthesized: Option<int>)
      requires Stands(script)
      modifies this`madeUp, this`pending, this`reader, this`inFlight, this`engine
      ensures Valid() && result >= -2 && result != -1
      ensures result == -2 <==> end.Jumped? || (old(engine).unclean && !old(engine).exitUnwound)
      ensures result == -2 ==> synthesized == None && madeUp == {}
      ensures result >= 0 && Orderly(script, installed) && installed ==> forall g: nat | 1 <= g <= |taken| :: g in answered || g in madeUp
      ensures result >= 0 && installed ==> (synthesized.Some? <==> InFlightAfter(script, installed))
      ensures result >= 0 && Orderly(script, installed) && installed ==>
                ((synthesized.Some? <==> taken != [] && |taken| !in answered)
                 <==> !(Cut(script) && InFlightAfter(script, installed)))
      ensures madeUp != {} ==> synthesized.Some? && madeUp == {|taken|} && |taken| !in answered
      ensures var fatal := FatalAfter(old(engine).lastFatal, flush);
              && (synthesized.Some? ==> RightStatus(synthesized.value, StatusAfter(old(engine).status, flush), fatal))
              && (result >= 0 ==> result == if synthesized.None? then 0 else if fatal then 2 else 1)
    {
      assert answered + madeUp == answered;
      LedgerParked(|taken|, answered, dropped, pending);
      if Orderly(script, installed) {
        LedgerSettled(|taken|, answered, pending, inFlight, Cut(script));
      }
      result, synthesized := WindUp(end, flush);
    }

    /** What follows the script: nothing after a bailout that no exit explains, else a response for a request in flight. */
    method WindUp(end: End, flush: Trace) returns (result: int, synthesized: Option<int>)
      requires Valid() && madeUp == {}
      modifies this`madeUp, this`pending, this`reader, this`inFlight, this`engine
      ensures Valid() && result >= -2 && result != -1
      ensures result == -2 <==> end.Jumped? || (old(engine).unclean && !old(engine).exitUnwound)
      ensures synthesized.Some? <==> result != -2 && old(inFlight) && installed
      ensures madeUp == if synthesized.Some? then Parked(old(pending)) else {}
      ensures var fatal := FatalAfter(old(engine).lastFatal, flush);
              && (synthesized.Some? ==> RightStatus(synthesized.value, StatusAfter(old(engine).status, flush), fatal))
              && (result >= 0 ==> result == if synthesized.None? then 0 else if fatal then 2 else 1)
    {
      result, synthesized := 0, None;
      if end.Jumped? || (engine.unclean && !engine.exitUnwound) {
        result := -2;
      } else if inFlight && installed {
        result, synthesized := Conclude(flush);
      }
    }

    /** The response made up from what the engine holds. */
    method Conclude(flush: Trace) returns (result: int, synthesized: Option<int>)
      requires Valid()
      modifies this`madeUp, this`pending, this`reader, this`inFlight, this`engine
      ensures Valid() && !inFlight && pending == None && madeUp == old(madeUp) + Parked(old(pending))
      ensures var fatal := FatalAfter(old(engine).lastFatal, flush);
              && synthesized.Some? && RightStatus(synthesized.value, StatusAfter(old(engine).status, flush), fatal)
              && result == if fatal then 2 else 1
    {
      FeedLast(engine, flush);
      engine := FeedAll(engine, flush);
      var st := if engine.status <= 0 then 200 else engine.status;
      if engine.lastFatal && st == 200 {
        st := 500;
      }
      synthesized := Some(st);
      Synthesize();
      result := if engine.lastFatal then 2 else 1;
    }
  }

  /** That script on a fresh worker: its one request is answered, and a response is made up all the same. */
  method MadeUpForNobody(r: Request, modulus: nat, build: (Field, Request) -> Table)
    returns (w: Worker, synthesized: Option<int>)
    requires modulus > 0
    ensures w.taken == [r] && 1 in w.answered && w.madeUp == {} && synthesized.Some?
  {
    w := new Worker(modulus, build, true);
    CutMayBeVouched(r);
    var script := [Take(Some(r), false), Happens(FreeExit(false)), SendStream(CutShort)];
    var result, made, _ := w.Run(script, Returned, []);
    assert result >= 0 && w.taken == [] + [r];
    synthesized := made;
  }
}
