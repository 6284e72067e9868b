/** KV keys: the strict UTF-8 check. */
module KvKey {

  type Byte = b: int | 0 <= b <= 255

  // ----- the syntax of UTF-8, section 4 of RFC 3629

  predicate Tail(b: Byte) { 0x80 <= b <= 0xBF }

  predicate Utf8_1(c: seq<Byte>) { |c| == 1 && c[0] <= 0x7F }

  predicate Utf8_2(c: seq<Byte>) { |c| == 2 && 0xC2 <= c[0] <= 0xDF && Tail(c[1]) }

  predicate Utf8_3(c: seq<Byte>) {
    && |c| == 3
    && (|| (c[0] == 0xE0 && 0xA0 <= c[1] <= 0xBF && Tail(c[2]))
        || (0xE1 <= c[0] <= 0xEC && Tail(c[1]) && Tail(c[2]))
        || (c[0] == 0xED && 0x80 <= c[1] <= 0x9F && Tail(c[2]))
        || (0xEE <= c[0] <= 0xEF && Tail(c[1]) && Tail(c[2])))
  }

  predicate Utf8_4(c: seq<Byte>) {
    && |c| == 4
    && (|| (c[0] == 0xF0 && 0x90 <= c[1] <= 0xBF && Tail(c[2]) && Tail(c[3]))
        || (0xF1 <= c[0] <= 0xF3 && Tail(c[1]) && Tail(c[2]) && Tail(c[3]))
        || (c[0] == 0xF4 && 0x80 <= c[1] <= 0x8F && Tail(c[2]) && Tail(c[3])))
  }

  predicate Utf8Char(c: seq<Byte>) { Utf8_1(c) || Utf8_2(c) || Utf8_3(c) || Utf8_4(c) }

  function Concat(cs: seq<seq<Byte>>): seq<Byte> {
    if cs == [] then [] else cs[0] + Concat(cs[1..])
  }

  predicate AllChars(cs: seq<seq<Byte>>) {
    forall i | 0 <= i < |cs| :: Utf8Char(cs[i])
  }

  /** `UTF8-octets = *( UTF8-char )`. */
  ghost predicate WellFormed(s: seq<Byte>) {
    exists cs :: AllChars(cs) && Concat(cs) == s
  }

  // ----- one character at a time

  /** Length of the character that a lead byte announces; 0 for a byte that leads none. */
  function Announced(c: Byte): (n: nat)
    ensures n <= 4
  {
    if c < 0x80 then 1
    else if 0xC2 <= c <= 0xDF then 2
    else if 0xE0 <= c <= 0xEF then 3
    else if 0xF0 <= c <= 0xF4 then 4
    else 0
  }

  /** The lead byte fixes the length: a string starts with at most one character. */
  lemma HeadIsFirst(s: seq<Byte>)
    requires s != [] && WellFormed(s)
    ensures var n := Announced(s[0]); 0 < n <= |s| && Utf8Char(s[..n]) && WellFormed(s[n..])
  {
    var cs :| AllChars(cs) && Concat(cs) == s;
    var n := Announced(s[0]);
    assert cs != [] && Utf8Char(cs[0]) && |cs[0]| == n;
    assert s[..n] == cs[0] && s[n..] == Concat(cs[1..]);
    assert AllChars(cs[1..]);
  }

  lemma AddHead(c: seq<Byte>, s: seq<Byte>)
    requires Utf8Char(c) && WellFormed(s)
    ensures WellFormed(c + s)
  {
    var cs :| AllChars(cs) && Concat(cs) == s;
    assert ([c] + cs)[1..] == cs;
    assert AllChars([c] + cs) && Concat([c] + cs) == c + s;
  }

  lemma EmptyWellFormed()
    ensures WellFormed([])
  {
    assert AllChars([]) && Concat([]) == [];
  }

  /** The rest decides, once the head is a character. */
  lemma SplitWellFormed(s: seq<Byte>, n: nat)
    requires s != [] && n == Announced(s[0])
    ensures WellFormed(s) <==> 0 < n <= |s| && Utf8Char(s[..n]) && WellFormed(s[n..])
  {
    if WellFormed(s) {
      HeadIsFirst(s);
    }
    if 0 < n <= |s| && Utf8Char(s[..n]) && WellFormed(s[n..]) {
      assert s == s[..n] + s[n..];
      AddHead(s[..n], s[n..]);
    }
  }

  // ----- the arithmetic of the scan

  /** The code point after reading the bytes of `c` behind a lead byte that contributes `lead`. */
  function CodePoint(lead: int, c: seq<Byte>): int {
    if c == [] then lead else CodePoint(lead, c[..|c| - 1]) * 64 + c[|c| - 1] % 64
  }

  /** The checks after the inner loop. */
  predicate InRange(cp: int, min: int) {
    !(cp < min || cp > 0x10FFFF || 0xD800 <= cp <= 0xDFFF)
  }

  function LeadBits(c: Byte, n: nat): int {
    if n == 2 then c % 32 else if n == 3 then c % 16 else c % 8
  }

  function Smallest(n: nat): int {
    if n == 2 then 0x80 else if n == 3 then 0x800 else 0x10000
  }

  predicate AllTails(c: seq<Byte>) {
    forall i | 0 <= i < |c| :: Tail(c[i])
  }

  lemma Range3(a: Byte, b: Byte, c: Byte)
    requires 0xE0 <= a <= 0xEF && Tail(b) && Tail(c)
    ensures InRange((a % 16 * 64 + b % 64) * 64 + c % 64, 0x800) <==> Utf8Char([a, b, c])
  {
    assert a % 16 == a - 0xE0 && b % 64 == b - 0x80 && c % 64 == c - 0x80;
  }

  lemma Range4(a: Byte, b: Byte, c: Byte, d: Byte)
    requires 0xF0 <= a <= 0xF4 && Tail(b) && Tail(c) && Tail(d)
    ensures InRange(((a % 8 * 64 + b % 64) * 64 + c % 64) * 64 + d % 64, 0x10000) <==> Utf8Char([a, b, c, d])
  {
    assert a % 8 == a - 0xF0 && b % 64 == b - 0x80 && c % 64 == c - 0x80 && d % 64 == d - 0x80;
  }

  lemma CodePointSnoc(lead: int, t: seq<Byte>, b: Byte)
    ensures CodePoint(lead, t + [b]) == CodePoint(lead, t) * 64 + b % 64
  {
    assert (t + [b])[..|t|] == t;
  }

  lemma CodePoint2(lead: int, b: Byte, c: Byte)
    ensures CodePoint(lead, [b]) == lead * 64 + b % 64
    ensures CodePoint(lead, [b, c]) == (lead * 64 + b % 64) * 64 + c % 64
  {
    CodePointSnoc(lead, [], b);
    CodePointSnoc(lead, [b], c);
    assert [] + [b] == [b] && [b] + [c] == [b, c];
  }

  lemma CodePoint3(lead: int, b: Byte, c: Byte, d: Byte)
    ensures CodePoint(lead, [b, c, d]) == ((lead * 64 + b % 64) * 64 + c % 64) * 64 + d % 64
  {
    CodePoint2(lead, b, c);
    CodePointSnoc(lead, [b, c], d);
    assert [b, c] + [d] == [b, c, d];
  }

  /** Judging a character by its code point is judging it by the grammar. */
  lemma RangeIsGrammar(c: seq<Byte>)
    requires |c| >= 2 && Announced(c[0]) == |c|
    ensures AllTails(c[1..]) && InRange(CodePoint(LeadBits(c[0], |c|), c[1..]), Smallest(|c|)) <==> Utf8Char(c)
  {
    if AllTails(c[1..]) {
      TailsInRange(c);
    } else {
      var i :| 0 <= i < |c[1..]| && !Tail(c[1..][i]);
      assert !Tail(c[i + 1]);
    }
  }

  lemma TailsInRange(c: seq<Byte>)
    requires |c| >= 2 && Announced(c[0]) == |c| && AllTails(c[1..])
    ensures InRange(CodePoint(LeadBits(c[0], |c|), c[1..]), Smallest(|c|)) <==> Utf8Char(c)
  {
    var lead, b := LeadBits(c[0], |c|), c[1..][0];
    if |c| == 2 {
      CodePoint2(lead, b, b);
      assert c == [c[0], b] && c[1..] == [b];
    } else if |c| == 3 {
      var d := c[1..][1];
      CodePoint2(lead, b, d);
      Range3(c[0], b, d);
      assert c == [c[0], b, d] && c[1..] == [b, d];
    } else {
      var d, e := c[1..][1], c[1..][2];
      CodePoint3(lead, b, d, e);
      Range4(c[0], b, d, e);
      assert c == [c[0], b, d, e] && c[1..] == [b, d, e];
    }
  }

  /** The inner loop and the checks after it, for the character at `i`. */
  method CheckChar(s: seq<Byte>, i: nat, n: nat) returns (ok: bool)
    requires i < |s| && n == Announced(s[i]) && 2 <= n
    ensures ok <==> i + n <= |s| && Utf8Char(s[i..i + n])
  {
    if |s| - i - 1 < n - 1 {
      return false;
    }
    ghost var c := s[i..i + n];
    RangeIsGrammar(c);
    var cp := LeadBits(s[i], n);
    for k := 1 to n
      invariant cp == CodePoint(LeadBits(s[i], n), c[1..][..k - 1])
      invariant forall j | 1 <= j < k :: Tail(c[j])
    {
      var b := s[i + k];
      if !(0x80 <= b <= 0xBF) {
        assert !Tail(c[1..][k - 1]);
        return false;
      }
      assert c[1..][..k][..k - 1] == c[1..][..k - 1] && c[1..][..k][k - 1] == b;
      cp := cp * 64 + b % 64;
    }
    assert c[1..][..n - 1] == c[1..];
    ok := InRange(cp, Smallest(n));
  }

  /** `ephpm_kv_utf8_valid`. */
  method Utf8Valid(s: seq<Byte>) returns (ok: bool)
    ensures ok <==> WellFormed(s)
  {
    var i := 0;
    assert s[0..] == s;
    while i < |s|
      invariant 0 <= i <= |s|
      invariant WellFormed(s[i..]) <==> WellFormed(s)
    {
      var n := Announced(s[i]);
      SplitWellFormed(s[i..], n);
      if n == 0 {
        return false;
      }
      if n == 1 {
        assert s[i..][..1] == [s[i]] && s[i..][1..] == s[i + 1..];
        i := i + 1;
      } else {
        ok := CheckChar(s, i, n);
        if !ok {
          assert i + n <= |s| ==> s[i..][..n] == s[i..i + n];
          return;
        }
        assert s[i..][..n] == s[i..i + n] && s[i..][n..] == s[i + n..];
        i := i + n;
      }
    }
    EmptyWellFormed();
    assert s[|s|..] == [];
    ok := true;
  }
}
