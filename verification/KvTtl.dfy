/** Time-to-live arithmetic of the KV functions, in signed 64-bit integers. */
module KvTtl {
  import opened Options
  import opened Words

  predicate Fits(x: int) { I64_MIN <= x <= I64_MAX }

  /** A clock that the code's own `(time + 1) * 1000` can still express. */
  predicate Clock(now: int) { 0 <= now && Fits((now + 1) * 1000) }

  /** `now_ceiling_ms`: the start of the next second. */
  function CeilingMs(now: int): int { (now + 1) * 1000 }

  /** `ephpm_kv_ttl_ms`: milliseconds, 0 for "no expiry", or a refusal. */
  function TtlMs(ttl: int, now: int): Option<int> {
    if ttl <= 0 then Some(0)
    else if ttl > (I64_MAX - CeilingMs(now)) / 1000 then None
    else Some(ttl * 1000)
  }

  /** `ephpm_session_ttl_ms`: a lifetime that cannot be expressed means "forever". */
  function SessionTtlMs(lifetime: int, now: int): int {
    if lifetime <= 0 || lifetime > (I64_MAX - CeilingMs(now)) / 1000 then 0 else lifetime * 1000
  }

  /** `ephpm_kv_ttl`: whole seconds left, rounded up; negative answers pass through. */
  function SecondsLeft(pttl: int): int {
    if pttl < 0 then pttl else (pttl + 999) / 1000
  }

  /** A positive TTL is taken if and only if its absolute expiry is expressible, and no step overflows. */
  lemma AcceptedExactly(ttl: int, now: int)
    requires Clock(now) && 0 < ttl && Fits(ttl)
    ensures TtlMs(ttl, now).Some? <==> Fits((now + 1) * 1000 + ttl * 1000)
    ensures Fits(I64_MAX - CeilingMs(now))
    ensures TtlMs(ttl, now).Some? ==> Fits(ttl * 1000)
    ensures SessionTtlMs(ttl, now) == match TtlMs(ttl, now) { case Some(ms) => ms case None => 0 }
  {
    var room := I64_MAX - CeilingMs(now);
    assert room / 1000 * 1000 <= room < room / 1000 * 1000 + 1000;
  }

  /**
    Stored at `at` milliseconds with an accepted TTL and read `elapsed` later
    while it is alive: the answer is what remains, rounded up to seconds. Within
    the first second that is the TTL itself. Nothing overflows on the way.
   */
  lemma ReadBack(ttl: int, now: int, at: int, elapsed: int)
    requires Clock(now) && 0 < ttl && Fits(ttl) && TtlMs(ttl, now).Some?
    requires now * 1000 <= at < (now + 1) * 1000 && 0 <= elapsed < ttl * 1000
    ensures var expiry := at + TtlMs(ttl, now).value;
            var pttl := expiry - (at + elapsed);
            var left := SecondsLeft(pttl);
            && Fits(expiry) && Fits(pttl + 999)
            && (left - 1) * 1000 < pttl <= left * 1000
            && (elapsed < 1000 ==> left == ttl)
  {
    AcceptedExactly(ttl, now);
    var pttl := ttl * 1000 - elapsed;
    var left := (pttl + 999) / 1000;
    assert left * 1000 <= pttl + 999 < left * 1000 + 1000;
  }

  /** No TTL and no lifetime mean no expiry, and "no expiry" and "no such key" are answered as they are. */
  lemma NoExpiry(ttl: int, now: int)
    ensures ttl <= 0 ==> TtlMs(ttl, now) == Some(0) && SessionTtlMs(ttl, now) == 0
    ensures ttl > 0 && TtlMs(ttl, now).Some? ==> TtlMs(ttl, now).value == ttl * 1000 != 0
    ensures SecondsLeft(-1) == -1 && SecondsLeft(-2) == -2 && SecondsLeft(0) == 0
  {
  }
}
