/**
  Response headers captured into one growing byte buffer and a growing table of
  spans, with allocations that may fail at any point.
 */
module HeaderCapture {
  import opened Options

  datatype Header = Header(name: string, value: string)

  /** Where a captured header lies in the buffer. */
  datatype Span = Span(nameOff: nat, nameLen: nat, valueOff: nat, valueLen: nat)

  // ----- splitting a line

  function Colon(line: string): (k: nat)
    ensures k <= |line| && ':' !in line[..k] && (k < |line| ==> line[k] == ':')
  {
    if line == "" || line[0] == ':' then 0
    else
      var k := 1 + Colon(line[1..]);
      assert line[..k] == [line[0]] + line[1..][..k - 1];
      k
  }

  function SkipBlanks(s: string): string {
    if s != "" && (s[0] == ' ' || s[0] == '\t') then SkipBlanks(s[1..]) else s
  }

  /** A line without a colon is no header. */
  function Split(line: string): Option<Header> {
    var k := Colon(line);
    if k == |line| then None else Some(Header(line[..k], SkipBlanks(line[k + 1..])))
  }

  /** Blanks and tabs. */
  predicate Blank(s: string) { forall i | 0 <= i < |s| :: s[i] == ' ' || s[i] == '\t' }

  lemma {:induction false} SkipBlanksIs(s: string) returns (blanks: string)
    ensures s == blanks + SkipBlanks(s) && Blank(blanks) && (SkipBlanks(s) == "" || !Blank(SkipBlanks(s)[..1]))
  {
    if s != "" && (s[0] == ' ' || s[0] == '\t') {
      blanks := SkipBlanksIs(s[1..]);
      blanks := [s[0]] + blanks;
    } else {
      blanks := "";
    }
  }

  /**
    A line is a header exactly if it has a colon. It is then the name, a colon,
    blanks and the value, with no colon in the name and no blank before the value.
   */
  lemma SplitIs(line: string) returns (blanks: string)
    ensures Split(line).Some? <==> ':' in line
    ensures Split(line).Some? ==>
              var h := Split(line).value;
              && line == h.name + ":" + blanks + h.value && ':' !in h.name
              && Blank(blanks) && (h.value == "" || !Blank(h.value[..1]))
  {
    var k := Colon(line);
    blanks := "";
    if k < |line| {
      blanks := SkipBlanksIs(line[k + 1..]);
      assert line[k] in line;
      assert line == line[..k] + ":" + line[k + 1..];
      Regroup(line[..k] + ":", blanks, SkipBlanks(line[k + 1..]));
    } else {
      assert line[..k] == line;
    }
  }

  lemma Regroup(x: string, y: string, z: string)
    ensures x + (y + z) == x + y + z
  {
  }

  /** The headers of the lines, in order. */
  function Headers(lines: seq<string>): seq<Header>
    decreases |lines|
  {
    if lines == [] then []
    else
      var n := |lines| - 1;
      Headers(lines[..n]) + match Split(lines[n]) { case Some(h) => [h] case None => [] }
  }

  /** The bytes that the headers take. */
  function Size(hs: seq<Header>): nat {
    if hs == [] then 0 else Size(hs[..|hs| - 1]) + SizeOf(hs[|hs| - 1])
  }

  function SizeOf(h: Header): nat { |h.name| + |h.value| }

  lemma SizeSnoc(hs: seq<Header>, h: Header)
    ensures Size(hs + [h]) == Size(hs) + SizeOf(h)
  {
    assert (hs + [h])[..|hs|] == hs;
  }

  /** `hs` is `all` with some headers left out. */
  predicate Thinned(hs: seq<Header>, all: seq<Header>)
    decreases |all|
  {
    if all == [] then hs == []
    else
      var n := |all| - 1;
      || Thinned(hs, all[..n])
      || (hs != [] && hs[|hs| - 1] == all[n] && Thinned(hs[..|hs| - 1], all[..n]))
  }

  lemma ThinnedAppend(hs: seq<Header>, all: seq<Header>, h: Header)
    requires Thinned(hs, all)
    ensures Thinned(hs, all + [h]) && Thinned(hs + [h], all + [h])
  {
    assert (all + [h])[..|all|] == all && (hs + [h])[..|hs|] == hs;
  }

  // ----- reading spans

  predicate Inside(s: Span, len: nat) {
    s.nameOff + s.nameLen <= len && s.valueOff + s.valueLen <= len
  }

  predicate AllInside(spans: seq<Span>, len: nat) {
    forall i | 0 <= i < |spans| :: Inside(spans[i], len)
  }

  function ReadSpan(bytes: string, s: Span): Header
    requires Inside(s, |bytes|)
  {
    Header(bytes[s.nameOff..s.nameOff + s.nameLen], bytes[s.valueOff..s.valueOff + s.valueLen])
  }

  function ReadAll(bytes: string, spans: seq<Span>): seq<Header>
    requires AllInside(spans, |bytes|)
  {
    seq(|spans|, i requires 0 <= i < |spans| => ReadSpan(bytes, spans[i]))
  }

  /** Bytes behind the last span do not matter. */
  lemma ReadPrefix(bytes: string, more: string, spans: seq<Span>)
    requires AllInside(spans, |bytes|) && bytes <= more
    ensures AllInside(spans, |more|) && ReadAll(more, spans) == ReadAll(bytes, spans)
  {
    assert forall i | 0 <= i < |spans| :: ReadSpan(more, spans[i]) == ReadSpan(bytes, spans[i]) by {
      forall i | 0 <= i < |spans| ensures ReadSpan(more, spans[i]) == ReadSpan(bytes, spans[i]) {
        var s := spans[i];
        assert more[s.nameOff..s.nameOff + s.nameLen] == bytes[s.nameOff..s.nameOff + s.nameLen];
        assert more[s.valueOff..s.valueOff + s.valueLen] == bytes[s.valueOff..s.valueOff + s.valueLen];
      }
    }
  }

  lemma ReadSnoc(bytes: string, spans: seq<Span>, h: Header)
    requires AllInside(spans, |bytes|)
    ensures var s := Span(|bytes|, |h.name|, |bytes| + |h.name|, |h.value|);
            var more := bytes + h.name + h.value;
            AllInside(spans + [s], |more|) && ReadAll(more, spans + [s]) == ReadAll(bytes, spans) + [h]
  {
    var s := Span(|bytes|, |h.name|, |bytes| + |h.name|, |h.value|);
    var more := bytes + h.name + h.value;
    ReadPrefix(bytes, more, spans);
    assert more[s.nameOff..s.nameOff + s.nameLen] == h.name;
    assert more[s.valueOff..s.valueOff + s.valueLen] == h.value;
    assert ReadSpan(more, s) == h;
  }

  /**
    After the two appends: the old headers are all there, and the length shows
    whether both landed, because an append that can fail appends something.
   */
  lemma Landed(bytes: string, spans: seq<Span>, h: Header, named: bool, valued: bool)
    requires AllInside(spans, |bytes|)
    requires (h.name == "" ==> named) && (h.value == "" ==> valued)
    ensures var mid := bytes + if named then h.name else "";
            var more := mid + if valued then h.value else "";
            var s := Span(|bytes|, |h.name|, |mid|, |h.value|);
            && (|more| == |bytes| + |h.name| + |h.value| <==> named && valued)
            && AllInside(spans, |more|) && ReadAll(more, spans) == ReadAll(bytes, spans)
            && (named && valued ==> AllInside(spans + [s], |more|) && ReadAll(more, spans + [s]) == ReadAll(bytes, spans) + [h])
  {
    var mid := bytes + if named then h.name else "";
    var more := mid + if valued then h.value else "";
    assert bytes <= more;
    ReadPrefix(bytes, more, spans);
    if named && valued {
      ReadSnoc(bytes, spans, h);
    }
  }

  // ----- the capture

  class Capture {
    /** Whether the `k`-th allocation of this thread succeeds. */
    const memory: nat -> bool
    var allocations: nat
    var buf: array<char>
    var len: nat
    var spans: array<Span>
    var count: nat

    ghost predicate Valid()
      reads this, spans
    {
      len <= buf.Length && count <= spans.Length && AllInside(spans[..count], len)
    }

    /** What `ephpm_get_response_header` hands out, index by index. */
    ghost function Captured(): seq<Header>
      requires Valid()
      reads this, buf, spans
    {
      ReadAll(buf[..len], spans[..count])
    }

    /** Every allocation since number `k` succeeded. */
    ghost predicate NoFailureSince(k: nat)
      reads this
    {
      forall i: nat | k <= i < allocations :: memory(i)
    }

    constructor (memory: nat -> bool)
      ensures Valid() && Captured() == [] && this.memory == memory && allocations == 0
      ensures fresh(buf) && fresh(spans)
    {
      this.memory := memory;
      buf := new char[0];
      spans := new Span[0];
      len, count, allocations := 0, 0, 0;
    }

    /** `headers_buf_append`: appends, or leaves the bytes as they were. */
    method Append(data: string) returns (ghost landed: bool)
      requires len <= buf.Length
      modifies this`buf, this`len, this`allocations, buf
      ensures len <= buf.Length && (buf == old(buf) || fresh(buf))
      ensures len <= old(len) + |data|
      ensures buf[..len] == old(buf[..len]) + if landed then data else ""
      ensures data == "" ==> landed
      ensures old(allocations) <= allocations && (NoFailureSince(old(allocations)) ==> landed)
    {
      while len + |data| > buf.Length
        invariant len == old(len) <= buf.Length && buf[..len] == old(buf[..len])
        invariant buf == old(buf) || fresh(buf)
        invariant old(allocations) <= allocations
        decreases len + |data| - buf.Length
      {
        var cap := if buf.Length > 0 then buf.Length * 2 else 1024;
        var ok := memory(allocations);
        allocations := allocations + 1;
        if !ok {
          assert !memory(allocations - 1);
          return false;
        }
        var grown := new char[cap](_ => ' ');
        forall i | 0 <= i < len { grown[i] := buf[i]; }
        assert grown[..len] == buf[..len];
        buf := grown;
      }
      forall i | 0 <= i < |data| { buf[len + i] := data[i]; }
      assert buf[..len] == old(buf[..len]) && buf[len..len + |data|] == data;
      len := len + |data|;
      landed := true;
    }

    /** Room for one more span, or a failure that changes nothing. */
    method GrowSpans() returns (ok: bool)
      requires Valid()
      modifies this`spans, this`allocations
      ensures Valid() && spans[..count] == old(spans[..count]) && (spans == old(spans) || fresh(spans))
      ensures ok ==> count < spans.Length
      ensures old(allocations) <= allocations && (NoFailureSince(old(allocations)) ==> ok)
    {
      ok := true;
      if count == spans.Length {
        var cap := if spans.Length > 0 then spans.Length * 2 else 16;
        ok := memory(allocations);
        allocations := allocations + 1;
        if !ok {
          assert !memory(allocations - 1);
          return;
        }
        var grown := new Span[cap](_ => Span(0, 0, 0, 0));
        forall i | 0 <= i < count { grown[i] := spans[i]; }
        assert grown[..count] == spans[..count];
        spans := grown;
      }
    }

    /** `capture_one_header`: the span is committed only if both appends landed. */
    method CaptureOne(h: Header)
      requires Valid()
      modifies this, buf, spans
      ensures Valid() && (buf == old(buf) || fresh(buf)) && (spans == old(spans) || fresh(spans))
      ensures Captured() == old(Captured()) || Captured() == old(Captured()) + [h]
      ensures len <= old(len) + SizeOf(h)
      ensures old(allocations) <= allocations
      ensures NoFailureSince(old(allocations)) ==> Captured() == old(Captured()) + [h]
    {
      ghost var bytes, table := buf[..len], spans[..count];
      var ok := GrowSpans();
      if !ok {
        return;
      }
      var nameOff := len;
      var named := Append(h.name);
      var valueOff := len;
      var valued := Append(h.value);
      spans[count] := Span(nameOff, |h.name|, valueOff, |h.value|);
      Landed(bytes, table, h, named, valued);
      assert spans[..count] == table;
      assert spans[..count + 1] == table + [Span(nameOff, |h.name|, valueOff, |h.value|)];
      if len == nameOff + |h.name| + |h.value| {
        count := count + 1;
      }
    }

    /** `capture_split_header_line`; the answer is whether the line is a Content-Type header. */
    method CaptureLine(line: string) returns (contentType: bool)
      requires Valid()
      modifies this, buf, spans
      ensures Valid() && (buf == old(buf) || fresh(buf)) && (spans == old(spans) || fresh(spans))
      ensures Captured() == old(Captured()) || (Split(line).Some? && Captured() == old(Captured()) + [Split(line).value])
      ensures old(allocations) <= allocations
      ensures NoFailureSince(old(allocations)) && Split(line).Some? ==> Captured() == old(Captured()) + [Split(line).value]
      ensures len <= old(len) + if Split(line).Some? then SizeOf(Split(line).value) else 0
      ensures contentType <==> Split(line).Some? && IsContentType(Split(line).value)
    {
      var colon := 0;
      while colon < |line| && line[colon] != ':'
        invariant 0 <= colon <= |line| && Colon(line) == colon + Colon(line[colon..])
      {
        assert line[colon..][1..] == line[colon + 1..];
        colon := colon + 1;
      }
      if colon == |line| {
        return false;
      }
      var value := colon + 1;
      while value < |line| && (line[value] == ' ' || line[value] == '\t')
        invariant colon < value <= |line| && SkipBlanks(line[value..]) == SkipBlanks(line[colon + 1..])
      {
        assert line[value..][1..] == line[value + 1..];
        value := value + 1;
      }
      var h := Header(line[..colon], line[value..]);
      assert Split(line) == Some(h);
      CaptureOne(h);
      contentType := IsContentType(h);
    }

    /** All header lines of the response, from an empty capture. */
    method CaptureLines(lines: seq<string>) returns (typed: bool)
      requires Valid() && Captured() == [] && len == 0
      modifies this, buf, spans
      ensures Valid() && (buf == old(buf) || fresh(buf)) && (spans == old(spans) || fresh(spans))
      ensures old(allocations) <= allocations && Thinned(Captured(), Headers(lines))
      ensures NoFailureSince(old(allocations)) ==> Captured() == Headers(lines)
      ensures len <= Size(Headers(lines))
      ensures typed <==> HasContentType(Headers(lines))
    {
      typed := false;
      for i := 0 to |lines|
        invariant Valid() && (buf == old(buf) || fresh(buf)) && (spans == old(spans) || fresh(spans))
        invariant Thinned(Captured(), Headers(lines[..i])) && old(allocations) <= allocations
        invariant NoFailureSince(old(allocations)) ==> Captured() == Headers(lines[..i])
        invariant len <= Size(Headers(lines[..i]))
        invariant typed <==> HasContentType(Headers(lines[..i]))
      {
        ghost var before, done := Captured(), allocations;
        HeadersSnoc(lines, i, before);
        var found := CaptureLine(lines[i]);
        typed := typed || found;
        assert NoFailureSince(old(allocations)) ==> forall k: nat | old(allocations) <= k < done :: memory(k);
      }
      assert lines[..|lines|] == lines;
    }

    /** `capture_response_headers`: nothing of an earlier response stays in the buffer or the table. */
    method CaptureResponse(lines: seq<string>, mimetype: Option<string>, mime: string, charset: string)
      requires Valid()
      modifies this, buf, spans
      ensures Valid() && Thinned(Captured(), Expected(lines, mimetype, mime, charset))
      ensures NoFailureSince(old(allocations)) ==> Captured() == Expected(lines, mimetype, mime, charset)
      ensures len <= Size(Expected(lines, mimetype, mime, charset))
    {
      len, count := 0, 0;
      assert spans[..count] == [];
      var typed := CaptureLines(lines);
      var extra := Extra(typed, mimetype, mime, charset);
      if extra.Some? {
        ThinnedAppend(Captured(), Headers(lines), extra.value);
        SizeSnoc(Headers(lines), extra.value);
        CaptureOne(extra.value);
      }
    }
  }

  /** One more line: what the reference list and the headers so far become. */
  lemma HeadersSnoc(lines: seq<string>, i: nat, hs: seq<Header>)
    requires i < |lines| && Thinned(hs, Headers(lines[..i]))
    ensures Split(lines[i]).None? ==> Headers(lines[..i + 1]) == Headers(lines[..i])
    ensures Split(lines[i]).Some? ==>
              && Headers(lines[..i + 1]) == Headers(lines[..i]) + [Split(lines[i]).value]
              && Thinned(hs + [Split(lines[i]).value], Headers(lines[..i + 1]))
              && Size(Headers(lines[..i + 1])) == Size(Headers(lines[..i])) + SizeOf(Split(lines[i]).value)
              && (HasContentType(Headers(lines[..i + 1])) <==>
                    HasContentType(Headers(lines[..i])) || IsContentType(Split(lines[i]).value))
    ensures Thinned(hs, Headers(lines[..i + 1]))
  {
    assert lines[..i + 1][..i] == lines[..i];
    if Split(lines[i]).Some? {
      ThinnedAppend(hs, Headers(lines[..i]), Split(lines[i]).value);
      SizeSnoc(Headers(lines[..i]), Split(lines[i]).value);
      HasContentTypeSnoc(Headers(lines[..i]), Split(lines[i]).value);
    } else {
      assert Headers(lines[..i]) + [] == Headers(lines[..i]);
    }
  }

  predicate IsContentType(h: Header) {
    Lower(h.name) == "content-type"
  }

  lemma HasContentTypeSnoc(hs: seq<Header>, h: Header)
    ensures HasContentType(hs + [h]) <==> HasContentType(hs) || IsContentType(h)
  {
    assert forall i | 0 <= i < |hs| :: (hs + [h])[i] == hs[i];
    assert (hs + [h])[|hs|] == h;
  }

  function Lower(s: string): string {
    seq(|s|, i requires 0 <= i < |s| => if 'A' <= s[i] <= 'Z' then s[i] - 'A' + 'a' else s[i])
  }

  predicate HasContentType(hs: seq<Header>) {
    exists i | 0 <= i < |hs| :: IsContentType(hs[i])
  }

  /** The default type, unless it does not fit the 256-byte buffer. */
  function DefaultType(mime: string, charset: string): Option<string> {
    var m := if mime == "" then "text/html" else mime;
    var text := if charset == "" then m else m + "; charset=" + charset;
    if |text| < 256 then Some(text) else None
  }

  /** The Content-Type added to a response that has none. */
  function Extra(typed: bool, mimetype: Option<string>, mime: string, charset: string): Option<Header> {
    if typed then None
    else if mimetype.Some? then Some(Header("Content-Type", mimetype.value))
    else if DefaultType(mime, charset).Some? then Some(Header("Content-Type", DefaultType(mime, charset).value))
    else None
  }

  /** The headers a response should have: the script's own, and a Content-Type if it set none. */
  function Expected(lines: seq<string>, mimetype: Option<string>, mime: string, charset: string): seq<Header> {
    var extra := Extra(HasContentType(Headers(lines)), mimetype, mime, charset);
    if extra.Some? then Headers(lines) + [extra.value] else Headers(lines)
  }

  predicate SameLetter(x: char, y: char) {
    x == y || ('A' <= x <= 'Z' && y == x - 'A' + 'a') || ('A' <= y <= 'Z' && x == y - 'A' + 'a')
  }

  /** The same letters, in either case. */
  predicate SameButCase(x: string, y: string) {
    |x| == |y| && forall i | 0 <= i < |x| :: SameLetter(x[i], y[i])
  }

  lemma LowerIs(x: string, y: string)
    ensures Lower(x) == Lower(y) <==> SameButCase(x, y)
  {
    if SameButCase(x, y) {
      assert forall i | 0 <= i < |x| :: SameLetter(x[i], y[i]) && Lower(x)[i] == Lower(y)[i];
    }
    if Lower(x) == Lower(y) {
      assert |x| == |Lower(x)| == |Lower(y)| == |y|;
      forall i | 0 <= i < |x| ensures SameLetter(x[i], y[i]) {
        assert Lower(x)[i] == Lower(y)[i];
      }
    }
  }

  lemma ContentTypeIs(h: Header)
    ensures IsContentType(h) <==> SameButCase(h.name, "Content-Type")
  {
    assert Lower("Content-Type") == "content-type";
    LowerIs(h.name, "Content-Type");
  }

  /**
    The headers a response should have, outright: the script's own, and if there
    is no Content-Type among them the one PHP recorded or else the default, which
    is left out only if it does not fit 255 characters.
   */
  lemma ExpectedIs(lines: seq<string>, mimetype: Option<string>, mime: string, charset: string)
    ensures var own, all := Headers(lines), Expected(lines, mimetype, mime, charset);
            var default := (if mime == "" then "text/html" else mime) + (if charset == "" then "" else "; charset=" + charset);
            && (HasContentType(own) ==> all == own)
            && (!HasContentType(own) && mimetype.Some? ==> all == own + [Header("Content-Type", mimetype.value)])
            && (!HasContentType(own) && mimetype.None? && |default| < 256 ==> all == own + [Header("Content-Type", default)])
            && (!HasContentType(own) && mimetype.None? && |default| >= 256 ==> all == own)
            && (HasContentType(all) <==> HasContentType(own) || mimetype.Some? || |default| < 256)
  {
    var own, m := Headers(lines), if mime == "" then "text/html" else mime;
    assert m + "" == m && m + ("; charset=" + charset) == m + "; charset=" + charset;
    var extra := Extra(HasContentType(own), mimetype, mime, charset);
    if extra.Some? {
      ContentTypeIs(extra.value);
      HasContentTypeSnoc(own, extra.value);
    }
  }
}
