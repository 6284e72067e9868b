/** Per-request INI overrides on one PHP thread, across any sequence of requests. */
module RequestIni {
  import opened Options

  type Table = map<string, string>

  datatype Pair = Pair(key: string, value: string)

  const MAX_REQUEST_INI := 16

  /** The engine's INI entries: current values, and the original value of each modified entry. */
  datatype Ini = Ini(table: Table, saved: Table)

  /** What a deactivation brings back. */
  function Original(ini: Ini): Table { ini.table + ini.saved }

  predicate Sound(ini: Ini) { ini.saved.Keys <= ini.table.Keys }

  /** `zend_alter_ini_entry`: an unknown entry, or a value its handler refuses, changes nothing. */
  function Alter(ini: Ini, p: Pair, accepts: Pair -> bool): Ini {
    if p.key !in ini.table || !accepts(p) then ini
    else Ini(ini.table[p.key := p.value],
             if p.key in ini.saved then ini.saved else ini.saved[p.key := ini.table[p.key]])
  }

  function AlterAll(ini: Ini, ps: seq<Pair>, accepts: Pair -> bool): Ini
    decreases |ps|
  {
    if ps == [] then ini else AlterAll(Alter(ini, ps[0], accepts), ps[1..], accepts)
  }

  /** `zend_ini_deactivate`, run by `php_request_shutdown`. */
  function Deactivate(ini: Ini): Ini { Ini(Original(ini), map[]) }

  // ----- the reference: a table with overrides laid over it

  /** The last value that `ps` gives to `key` and the engine takes. */
  function LastValue(ps: seq<Pair>, key: string, accepts: Pair -> bool): Option<string>
    decreases |ps|
  {
    if ps == [] then None
    else
      var p := ps[|ps| - 1];
      if p.key == key && accepts(p) then Some(p.value) else LastValue(ps[..|ps| - 1], key, accepts)
  }

  predicate Gives(p: Pair, key: string, accepts: Pair -> bool) { p.key == key && accepts(p) }

  /** It is given by some override, and by none after it. */
  lemma {:induction false} LastValueIs(ps: seq<Pair>, key: string, accepts: Pair -> bool)
    ensures match LastValue(ps, key, accepts)
            case Some(v) => exists i | 0 <= i < |ps| ::
                              ps[i] == Pair(key, v) && accepts(ps[i]) && forall j | i < j < |ps| :: !Gives(ps[j], key, accepts)
            case None => forall i | 0 <= i < |ps| :: !Gives(ps[i], key, accepts)
    decreases |ps|
  {
    if ps != [] {
      var n := |ps| - 1;
      LastValueIs(ps[..n], key, accepts);
      if !Gives(ps[n], key, accepts) {
        match LastValue(ps[..n], key, accepts)
        case Some(v) =>
          var i :| 0 <= i < n && ps[..n][i] == Pair(key, v) && accepts(ps[i]) && forall j | i < j < n :: !Gives(ps[..n][j], key, accepts);
          assert ps[i] == Pair(key, v) && forall j | i < j < n :: ps[..n][j] == ps[j];
        case None =>
          assert forall i | 0 <= i < n :: ps[..n][i] == ps[i];
      } else {
        assert ps[n] == Pair(key, ps[n].value);
      }
    }
  }

  function Overridden(base: Table, ps: seq<Pair>, accepts: Pair -> bool): Table {
    map k | k in base :: match LastValue(ps, k, accepts) case Some(v) => v case None => base[k]
  }

  lemma {:induction false} AlterAppend(ini: Ini, ps: seq<Pair>, p: Pair, accepts: Pair -> bool)
    ensures AlterAll(ini, ps + [p], accepts) == Alter(AlterAll(ini, ps, accepts), p, accepts)
    decreases |ps|
  {
    if ps == [] {
      assert (ps + [p])[1..] == [];
    } else {
      assert (ps + [p])[1..] == ps[1..] + [p];
      AlterAppend(Alter(ini, ps[0], accepts), ps[1..], p, accepts);
    }
  }

  lemma AlterKeeps(ini: Ini, p: Pair, accepts: Pair -> bool)
    requires Sound(ini)
    ensures Sound(Alter(ini, p, accepts)) && Original(Alter(ini, p, accepts)) == Original(ini)
  {
  }

  lemma {:induction false} AlterAllKeeps(ini: Ini, ps: seq<Pair>, accepts: Pair -> bool)
    requires Sound(ini)
    ensures Sound(AlterAll(ini, ps, accepts)) && Original(AlterAll(ini, ps, accepts)) == Original(ini)
    decreases |ps|
  {
    if ps != [] {
      AlterKeeps(ini, ps[0], accepts);
      AlterAllKeeps(Alter(ini, ps[0], accepts), ps[1..], accepts);
    }
  }

  /** Replaying the overrides is laying them over the table: for each entry the last one wins. */
  lemma {:induction false} AlterAllIsOverridden(ini: Ini, ps: seq<Pair>, accepts: Pair -> bool)
    ensures AlterAll(ini, ps, accepts).table == Overridden(ini.table, ps, accepts)
    decreases |ps|
  {
    if ps != [] {
      var n := |ps| - 1;
      assert ps == ps[..n] + [ps[n]];
      AlterAppend(ini, ps[..n], ps[n], accepts);
      AlterAllIsOverridden(ini, ps[..n], accepts);
    }
  }

  lemma AlterOne(ini: Ini, p: Pair, accepts: Pair -> bool)
    ensures Alter(ini, p, accepts).table == Overridden(ini.table, [p], accepts)
  {
    AlterAllIsOverridden(ini, [p], accepts);
    assert [p][1..] == [];
  }

  /** Applying twice is applying once. */
  lemma OverriddenTwice(base: Table, ps: seq<Pair>, accepts: Pair -> bool)
    ensures Overridden(Overridden(base, ps, accepts), ps, accepts) == Overridden(base, ps, accepts)
  {
  }

  /** The script's own changes are those the engine accepted. */
  predicate Any(p: Pair) { true }

  function Capped(ps: seq<Pair>): seq<Pair> {
    if |ps| <= MAX_REQUEST_INI then ps else ps[..MAX_REQUEST_INI]
  }

  // ----- the thread

  /** One override the host asks for; `copied` is false when memory for the copy runs out. */
  datatype Override = Override(pair: Pair, copied: bool)

  function Copied(os: seq<Override>): seq<Pair>
    decreases |os|
  {
    if os == [] then []
    else Copied(os[..|os| - 1]) + if os[|os| - 1].copied then [os[|os| - 1].pair] else []
  }

  /** What the host does for one request. `changes` are the script's own `ini_set` calls. */
  datatype Request = Request(
    overrides: seq<Override>, startup: bool, startupResets: bool, parsesLate: bool,
    run: bool, changes: seq<Pair>, finish: bool)

  class Thread {
    ghost const base: Table
    const accepts: Pair -> bool
    /** The configured time limit as text, on builds with a native execution timer. */
    const limit: Option<string>
    var ini: Ini
    const keys: array<string>
    const vals: array<string>
    var count: nat
    var active: bool

    ghost predicate BufferOk()
      reads this
    {
      keys.Length == vals.Length == MAX_REQUEST_INI && keys != vals && count <= MAX_REQUEST_INI
    }

    /** Whatever the table reads now, a deactivation brings the start-up table back. */
    ghost predicate Valid()
      reads this
    {
      BufferOk() && Sound(ini) && Original(ini) == base && (!active ==> ini.saved == map[])
    }

    ghost function Buffered(): seq<Pair>
      requires BufferOk()
      reads this, keys, vals
    {
      Zip(keys[..count], vals[..count])
    }

    /** A thread with the request that thread start-up leaves open. */
    constructor (base: Table, accepts: Pair -> bool, limit: Option<string>)
      ensures Valid() && this.base == base && this.accepts == accepts && this.limit == limit
      ensures Buffered() == [] && active && fresh(keys) && fresh(vals)
    {
      this.base, this.accepts, this.limit := base, accepts, limit;
      ini := Ini(base, map[]);
      keys := new string[MAX_REQUEST_INI](_ => "");
      vals := new string[MAX_REQUEST_INI](_ => "");
      count, active := 0, true;
    }

    /** `ephpm_request_set_ini`. */
    method SetIni(o: Override)
      requires BufferOk()
      modifies this`count, keys, vals
      ensures BufferOk()
      ensures Buffered() == Capped(old(Buffered()) + if o.copied then [o.pair] else [])
    {
      if count >= MAX_REQUEST_INI || !o.copied {
        return;
      }
      keys[count] := o.pair.key;
      vals[count] := o.pair.value;
      count := count + 1;
    }

    /** `ephpm_request_ini_apply`. */
    method Apply()
      requires BufferOk() && Sound(ini)
      modifies this`ini
      ensures ini == AlterAll(old(ini), Buffered(), accepts)
      ensures Sound(ini) && Original(ini) == old(Original(ini))
    {
      ghost var ps := Buffered();
      AlterAllKeeps(ini, ps, accepts);
      for i := 0 to count
        invariant AlterAll(ini, ps[i..], accepts) == AlterAll(old(ini), ps, accepts)
      {
        assert ps[i..][1..] == ps[i + 1..];
        ini := Alter(ini, Pair(keys[i], vals[i]), accepts);
      }
    }

    /** `ephpm_request_ini_reset`. */
    method Reset()
      requires BufferOk()
      modifies this`count, keys, vals
      ensures BufferOk() && Buffered() == []
    {
      for i := 0 to count {
        keys[i], vals[i] := "", "";
      }
      count := 0;
    }

    /** `php_request_shutdown`, as far as INI entries are concerned. */
    method Shutdown()
      requires Valid()
      modifies this`ini, this`active
      ensures Valid() && !active && ini == Ini(base, map[])
    {
      ini := Deactivate(ini);
      active := false;
    }

    /**
      `ephpm_begin_request`. `ok` and `resets` are what `php_request_startup`
      does: whether it succeeds, and whether it resets modified entries. `during`
      is the table the upload parser reads, before the reset or, if `late`, after it.
     */
    method Begin(ok: bool, resets: bool, late: bool) returns (ghost during: Table)
      requires Valid()
      modifies this`ini, this`active, this`count, keys, vals
      ensures Valid() && active == ok
      ensures during == if resets && late then base else Overridden(base, old(Buffered()), accepts)
      ensures ok ==> ini.table == Overridden(base, old(Buffered()), accepts) && Buffered() == old(Buffered())
      ensures !ok ==> ini.table == base && Buffered() == []
    {
      if active {
        Shutdown();
      }
      assert ini.table == base;
      AlterAllIsOverridden(ini, Buffered(), accepts);
      Apply();
      during := ini.table;
      if resets {
        ini := Deactivate(ini);
      }
      if late {
        during := ini.table;
      }
      active := true;
      if !ok {
        Shutdown();
        Reset();
        return;
      }
      AlterAllIsOverridden(ini, Buffered(), accepts);
      OverriddenTwice(base, Buffered(), accepts);
      Apply();
    }

    /**
      `ephpm_run_request`: mirror the time limit, run the script, drop the buffer.
      `seen` is the table the script starts with.
     */
    method Run(changes: seq<Pair>) returns (seen: Table)
      requires Valid() && active
      modifies this`ini, this`count, keys, vals
      ensures Valid() && Buffered() == []
      ensures seen == Timed(old(ini.table), limit, accepts) && ini.table == Overridden(seen, changes, Any)
    {
      if limit.Some? {
        var p := Pair(TIME_LIMIT, limit.value);
        AlterKeeps(ini, p, accepts);
        AlterOne(ini, p, accepts);
        ini := Alter(ini, p, accepts);
      }
      seen := ini.table;
      AlterAllKeeps(ini, changes, Any);
      AlterAllIsOverridden(ini, changes, Any);
      ini := AlterAll(ini, changes, Any);
      Reset();
    }

    /** `ephpm_finish_request`. */
    method Finish() returns (finished: bool)
      requires Valid()
      modifies this`ini, this`active
      ensures Valid() && !active && finished == old(active) && ini.table == base
    {
      finished := active;
      if active {
        Shutdown();
      }
    }

    /** The host buffers the overrides of one request. */
    method SetAll(os: seq<Override>)
      requires BufferOk()
      modifies this`count, keys, vals
      ensures BufferOk() && Buffered() == Capped(old(Buffered()) + Copied(os))
    {
      for i := 0 to |os|
        invariant BufferOk() && Buffered() == Capped(old(Buffered()) + Copied(os[..i]))
      {
        assert os[..i + 1][..i] == os[..i];
        ghost var sofar := old(Buffered()) + Copied(os[..i]);
        SetIni(os[i]);
        ghost var added := if os[i].copied then [os[i].pair] else [];
        assert old(Buffered()) + Copied(os[..i + 1]) == sofar + added;
      }
      assert os[..|os|] == os;
    }

    /** One request, as far as the host takes it. */
    method ServeOne(r: Request) returns (seen: Option<Table>)
      requires Valid()
      modifies this`ini, this`active, this`count, keys, vals
      ensures Valid()
      ensures var ps := Capped(old(Buffered()) + Copied(r.overrides));
              && seen == Sees(r, base, ps, limit, accepts)
              && Buffered() == if r.startup && !r.run then ps else []
      ensures r.finish || !r.startup ==> ini.table == base
      ensures !r.finish && seen.Some? ==> ini.table == Overridden(seen.value, r.changes, Any)
    {
      SetAll(r.overrides);
      var _ := Begin(r.startup, r.startupResets, r.parsesLate);
      seen := None;
      if r.startup && r.run {
        var table := Run(r.changes);
        seen := Some(table);
      }
      if r.finish {
        var _ := Finish();
      }
    }

    /**
      Any sequence of requests, with failed start-ups and requests that are never
      run or never finished. `seen[i]` is what the `i`-th script saw, if it ran.
     */
    method Serve(rs: seq<Request>) returns (seen: seq<Option<Table>>)
      requires Valid() && Buffered() == []
      modifies this`ini, this`active, this`count, keys, vals
      ensures Valid() && |seen| == |rs|
      ensures forall i | 0 <= i < |rs| :: seen[i] == Sees(rs[i], base, Effective(rs, i), limit, accepts)
      ensures (forall k | 0 <= k < |rs| :: rs[k].startup ==> rs[k].run) ==>
                forall i | 0 <= i < |rs| :: seen[i] == Sees(rs[i], base, Capped(Copied(rs[i].overrides)), limit, accepts)
      ensures rs != [] && (rs[|rs| - 1].finish || !rs[|rs| - 1].startup) ==> ini.table == base
    {
      seen := [];
      for i := 0 to |rs|
        invariant Valid() && Buffered() == Leftover(rs, i) && seen == SeenBy(rs, i, base, limit, accepts)
        invariant i > 0 && (rs[i - 1].finish || !rs[i - 1].startup) ==> ini.table == base
      {
        LeftoverStep(rs, i);
        var s := ServeOne(rs[i]);
        seen := seen + [s];
      }
      SeenAt(rs, |rs|, base, limit, accepts);
      forall i | 0 <= i < |rs| ensures Leftover(rs, i) == [] ==> Effective(rs, i) == Capped(Copied(rs[i].overrides)) {
        OwnOverrides(rs, i);
      }
    }
  }

  /** The table the script of `r` starts with, given the overrides in force; none if it never runs. */
  function Sees(r: Request, base: Table, ps: seq<Pair>, limit: Option<string>, accepts: Pair -> bool): Option<Table> {
    if r.startup && r.run then Some(Timed(Overridden(base, ps, accepts), limit, accepts)) else None
  }

  const TIME_LIMIT := "max_execution_time"

  /**
    The table a script sees, entry by entry: the configured time limit in its own
    entry if there is one and it is accepted, else the override in force, else the
    start-up value. A script that is not run sees none.
   */
  lemma SeesIs(r: Request, base: Table, ps: seq<Pair>, limit: Option<string>, accepts: Pair -> bool)
    ensures Sees(r, base, ps, limit, accepts).Some? <==> r.startup && r.run
    ensures r.startup && r.run ==>
              var t := Sees(r, base, ps, limit, accepts).value;
              && t.Keys == base.Keys
              && forall k <- base ::
                   t[k] == if k == "max_execution_time" && limit.Some? && accepts(Pair(k, limit.value)) then limit.value
                           else match LastValue(ps, k, accepts) case Some(v) => v case None => base[k]
  {
    if limit.Some? {
      var p := Pair(TIME_LIMIT, limit.value);
      assert [p][..0] == [];
      assert forall k :: LastValue([p], k, accepts) == if k == TIME_LIMIT && accepts(p) then Some(limit.value) else None;
    }
  }

  function Zip(ks: seq<string>, vs: seq<string>): seq<Pair>
    requires |ks| == |vs|
  {
    seq(|ks|, i requires 0 <= i < |ks| => Pair(ks[i], vs[i]))
  }

  /** The table with the time limit mirrored into its entry. */
  function Timed(t: Table, limit: Option<string>, accepts: Pair -> bool): Table {
    match limit
    case Some(v) => Overridden(t, [Pair(TIME_LIMIT, v)], accepts)
    case None => t
  }

  // ----- whose overrides they are

  /** What request `i` finds in the buffer: only a predecessor that started and was not run leaves anything. */
  function Leftover(rs: seq<Request>, i: nat): seq<Pair>
    requires i <= |rs|
    decreases i, 0
  {
    if i == 0 || !rs[i - 1].startup || rs[i - 1].run then [] else Effective(rs, i - 1)
  }

  function Effective(rs: seq<Request>, i: nat): seq<Pair>
    requires i < |rs|
    decreases i, 1
  {
    Capped(Leftover(rs, i) + Copied(rs[i].overrides))
  }

  /** What the first `n` scripts see. */
  function SeenBy(rs: seq<Request>, n: nat, base: Table, limit: Option<string>, accepts: Pair -> bool): seq<Option<Table>>
    requires n <= |rs|
  {
    if n == 0 then []
    else SeenBy(rs, n - 1, base, limit, accepts) + [Sees(rs[n - 1], base, Effective(rs, n - 1), limit, accepts)]
  }

  lemma {:induction false} SeenAt(rs: seq<Request>, n: nat, base: Table, limit: Option<string>, accepts: Pair -> bool)
    requires n <= |rs|
    ensures var seen := SeenBy(rs, n, base, limit, accepts);
            && |seen| == n
            && forall i | 0 <= i < n :: seen[i] == Sees(rs[i], base, Effective(rs, i), limit, accepts)
  {
    if n > 0 {
      SeenAt(rs, n - 1, base, limit, accepts);
    }
  }

  lemma LeftoverStep(rs: seq<Request>, i: nat)
    requires i < |rs|
    ensures Effective(rs, i) == Capped(Leftover(rs, i) + Copied(rs[i].overrides))
    ensures Leftover(rs, i + 1) == if rs[i].startup && !rs[i].run then Effective(rs, i) else []
  {
  }

  /**
    The overrides in force are the request's own, up to 16, when its predecessor
    left nothing: it did not start, it was run, or it had buffered nothing. For a
    request with fewer than 16 overrides that is also the only way.
   */
  lemma OwnOverrides(rs: seq<Request>, i: nat)
    requires i < |rs|
    ensures Effective(rs, i) == Capped(Copied(rs[i].overrides)) <== Leftover(rs, i) == []
    ensures Leftover(rs, i) == [] <==> i == 0 || !rs[i - 1].startup || rs[i - 1].run || Effective(rs, i - 1) == []
    ensures |Copied(rs[i].overrides)| < 16 ==>
              (Effective(rs, i) == Capped(Copied(rs[i].overrides)) <==> Leftover(rs, i) == [])
  {
    assert [] + Copied(rs[i].overrides) == Copied(rs[i].overrides);
  }

  /** It does happen: a request that is begun and never run hands its overrides to the next one. */
  lemma LeftoverHappens(p: Pair)
    ensures var rs := [Request([Override(p, true)], true, false, false, false, [], true),
                       Request([], true, false, false, true, [], true)];
            Copied(rs[1].overrides) == [] && Effective(rs, 1) == [p]
  {
    var rs := [Request([Override(p, true)], true, false, false, false, [], true),
               Request([], true, false, false, true, [], true)];
    assert rs[0].overrides[..0] == [];
    assert Copied(rs[0].overrides) == [] + [p] == [p];
    assert Leftover(rs, 0) + [p] == [p];
    assert Effective(rs, 0) == [p] && Leftover(rs, 1) == [p];
    assert [p] + Copied(rs[1].overrides) == [p];
  }

  /** With a host that runs every request it starts, every script sees exactly its own overrides. */
  lemma IniIsolation(rs: seq<Request>, i: nat, base: Table, accepts: Pair -> bool)
    requires i < |rs| && forall k | 0 <= k < i :: rs[k].startup ==> rs[k].run
    ensures Overridden(base, Effective(rs, i), accepts) == Overridden(base, Capped(Copied(rs[i].overrides)), accepts)
  {
    OwnOverrides(rs, i);
  }
}
