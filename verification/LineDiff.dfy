/** The line diff of the conformance report: an LCS table and its traceback. */
module LineDiff {

  type Line = string

  /** Lines of either input beyond which the table is not built. */
  const MAX_LINES := 500

  /** One output line: `' '` in both, `'-'` upstream only, `'+'` ours only. */
  datatype Tagged = Tagged(tag: char, text: Line)

  datatype Report = TooLarge(upstream: nat, ours: nat) | Diff(text: string)

  // ----- what a diff has to be

  /** The texts of the lines whose tag is `x` or `y`, in order. */
  function Select(d: seq<Tagged>, x: char, y: char): seq<Line> {
    if d == [] then []
    else (if d[0].tag == x || d[0].tag == y then [d[0].text] else []) + Select(d[1..], x, y)
  }

  function Kept(d: seq<Tagged>): nat {
    if d == [] then 0 else (if d[0].tag == ' ' then 1 else 0) + Kept(d[1..])
  }

  /** `c` can be obtained from `a` by deleting lines. */
  predicate IsSubsequence(c: seq<Line>, a: seq<Line>)
    decreases |a|
  {
    || c == []
    || (a != [] && c[0] == a[0] && IsSubsequence(c[1..], a[1..]))
    || (a != [] && IsSubsequence(c, a[1..]))
  }

  predicate Common(c: seq<Line>, a: seq<Line>, b: seq<Line>) {
    IsSubsequence(c, a) && IsSubsequence(c, b)
  }

  /** Correct: it spells both inputs. Optimal: no common subsequence keeps more lines. */
  ghost predicate BestDiff(d: seq<Tagged>, a: seq<Line>, b: seq<Line>) {
    && Select(d, ' ', '-') == a
    && Select(d, ' ', '+') == b
    && (exists c :: Common(c, a, b) && |c| == Kept(d))
    && (forall c :: Common(c, a, b) ==> |c| <= Kept(d))
  }

  // ----- the recurrence behind the table

  function Max(x: nat, y: nat): nat { if x > y then x else y }

  /** Value of the table for the suffixes `a` and `b`. */
  function Lcs(a: seq<Line>, b: seq<Line>): nat
    decreases |a| + |b|
  {
    if a == [] || b == [] then 0
    else if a[0] == b[0] then Lcs(a[1..], b[1..]) + 1
    else Max(Lcs(a[1..], b), Lcs(a, b[1..]))
  }

  lemma {:induction false} DropHead(c: seq<Line>, a: seq<Line>)
    requires c != [] && IsSubsequence(c, a)
    ensures IsSubsequence(c[1..], a)
    ensures a != [] && IsSubsequence(c[1..], a[1..])
    decreases |a|
  {
    if !(c[0] == a[0] && IsSubsequence(c[1..], a[1..])) {
      DropHead(c, a[1..]);
    }
  }

  /** No common subsequence is longer than the table says. */
  lemma {:induction false} LcsUpperBound(c: seq<Line>, a: seq<Line>, b: seq<Line>)
    requires Common(c, a, b)
    ensures |c| <= Lcs(a, b)
    decreases |a| + |b|
  {
    if c != [] {
      if a[0] == b[0] {
        DropHead(c, a);
        DropHead(c, b);
        LcsUpperBound(c[1..], a[1..], b[1..]);
      } else if IsSubsequence(c, a[1..]) {
        LcsUpperBound(c, a[1..], b);
      } else {
        assert c[0] == a[0];
        LcsUpperBound(c, a, b[1..]);
      }
    }
  }

  // ----- the pieces of the output

  function TagAll(tag: char, lines: seq<Line>): seq<Tagged> {
    seq(|lines|, i requires 0 <= i < |lines| => Tagged(tag, lines[i]))
  }

  lemma {:induction false} SelectAppend(d: seq<Tagged>, e: seq<Tagged>, x: char, y: char)
    ensures Select(d + e, x, y) == Select(d, x, y) + Select(e, x, y)
  {
    if d == [] {
      assert d + e == e;
    } else {
      assert (d + e)[1..] == d[1..] + e;
      SelectAppend(d[1..], e, x, y);
    }
  }

  lemma {:induction false} KeptAppend(d: seq<Tagged>, e: seq<Tagged>)
    ensures Kept(d + e) == Kept(d) + Kept(e)
  {
    if d == [] {
      assert d + e == e;
    } else {
      assert (d + e)[1..] == d[1..] + e;
      KeptAppend(d[1..], e);
    }
  }

  lemma {:induction false} SelectTagAll(tag: char, lines: seq<Line>, x: char, y: char)
    ensures Select(TagAll(tag, lines), x, y) == if tag == x || tag == y then lines else []
    ensures tag != ' ' ==> Kept(TagAll(tag, lines)) == 0
  {
    if lines != [] {
      assert TagAll(tag, lines)[1..] == TagAll(tag, lines[1..]);
      SelectTagAll(tag, lines[1..], x, y);
    }
  }

  predicate OnlyTags(d: seq<Tagged>) {
    forall i | 0 <= i < |d| :: d[i].tag == ' ' || d[i].tag == '-' || d[i].tag == '+'
  }

  /** The kept lines of a correct diff are a common subsequence of its inputs. */
  lemma {:induction false} KeptIsCommon(d: seq<Tagged>)
    ensures Common(Select(d, ' ', ' '), Select(d, ' ', '-'), Select(d, ' ', '+'))
    ensures |Select(d, ' ', ' ')| == Kept(d)
  {
    if d != [] {
      KeptIsCommon(d[1..]);
      Unfold(d, ' ', ' ');
      Unfold(d, ' ', '-');
      Unfold(d, ' ', '+');
    }
  }

  lemma Unfold(d: seq<Tagged>, x: char, y: char)
    requires d != []
    ensures if d[0].tag == x || d[0].tag == y
            then Select(d, x, y) != [] && Select(d, x, y)[0] == d[0].text && Select(d, x, y)[1..] == Select(d[1..], x, y)
            else Select(d, x, y) == Select(d[1..], x, y)
  {
  }

  /** A diff that spells both inputs and keeps as many lines as the table says is a best diff. */
  lemma BestFromTable(d: seq<Tagged>, a: seq<Line>, b: seq<Line>)
    requires Select(d, ' ', '-') == a && Select(d, ' ', '+') == b && Kept(d) == Lcs(a, b)
    ensures BestDiff(d, a, b)
  {
    KeptIsCommon(d);
    assert Common(Select(d, ' ', ' '), a, b);
    forall c | Common(c, a, b) ensures |c| <= Kept(d) {
      LcsUpperBound(c, a, b);
    }
  }

  // ----- the two loops

  /** The recurrence by positions. */
  function Table(a: seq<Line>, b: seq<Line>, i: nat, j: nat): nat
    requires i <= |a| && j <= |b|
    decreases |a| - i + |b| - j
  {
    if i == |a| || j == |b| then 0
    else if a[i] == b[j] then Table(a, b, i + 1, j + 1) + 1
    else Max(Table(a, b, i + 1, j), Table(a, b, i, j + 1))
  }

  lemma {:induction false} TableIsLcs(a: seq<Line>, b: seq<Line>, i: nat, j: nat)
    requires i <= |a| && j <= |b|
    ensures Table(a, b, i, j) == Lcs(a[i..], b[j..])
    decreases |a| - i + |b| - j
  {
    if i < |a| && j < |b| {
      assert a[i..][1..] == a[i + 1..] && b[j..][1..] == b[j + 1..];
      if a[i] == b[j] {
        TableIsLcs(a, b, i + 1, j + 1);
      } else {
        TableIsLcs(a, b, i + 1, j);
        TableIsLcs(a, b, i, j + 1);
      }
    }
  }

  /** Fill the table from the bottom right corner. */
  method FillTable(a: seq<Line>, b: seq<Line>) returns (lcs: array2<nat>)
    ensures lcs.Length0 == |a| + 1 && lcs.Length1 == |b| + 1
    ensures forall i, j | 0 <= i <= |a| && 0 <= j <= |b| :: lcs[i, j] == Table(a, b, i, j)
  {
    lcs := new nat[|a| + 1, |b| + 1]((_, _) => 0);
    for i := |a| downto 0
      invariant forall k, j {:trigger lcs[k, j]} | i <= k <= |a| && 0 <= j <= |b| :: lcs[k, j] == Table(a, b, k, j)
      invariant forall k, j | 0 <= k < i && 0 <= j <= |b| :: lcs[k, j] == 0
    {
      for j := |b| downto 0
        invariant forall k, l {:trigger lcs[k, l]} | i < k <= |a| && 0 <= l <= |b| :: lcs[k, l] == Table(a, b, k, l)
        invariant forall l {:trigger lcs[i, l]} | j <= l <= |b| :: lcs[i, l] == Table(a, b, i, l)
        invariant forall k, l | 0 <= k < i && 0 <= l <= |b| :: lcs[k, l] == 0
      {
        lcs[i, j] := if a[i] == b[j] then lcs[i + 1, j + 1] + 1 else Max(lcs[i + 1, j], lcs[i, j + 1]);
      }
    }
  }

  /** Where the traceback stands: what was emitted spells the prefixes, and no kept line was given away. */
  ghost predicate OnTrack(d: seq<Tagged>, a: seq<Line>, b: seq<Line>, i: nat, j: nat)
    requires i <= |a| && j <= |b|
  {
    && Select(d, ' ', '-') == a[..i]
    && Select(d, ' ', '+') == b[..j]
    && Kept(d) + Lcs(a[i..], b[j..]) == Lcs(a, b)
    && OnlyTags(d)
  }

  lemma Emit(d: seq<Tagged>, t: Tagged, x: char, y: char)
    ensures Select(d + [t], x, y) == Select(d, x, y) + if t.tag == x || t.tag == y then [t.text] else []
    ensures Kept(d + [t]) == Kept(d) + if t.tag == ' ' then 1 else 0
  {
    SelectAppend(d, [t], x, y);
    KeptAppend(d, [t]);
    assert [t][1..] == [];
  }

  /** The branch the loop takes at `(i, j)`. */
  function NextLine(a: seq<Line>, b: seq<Line>, i: nat, j: nat, down: nat, right: nat): Tagged
    requires i < |a| && j < |b|
  {
    if a[i] == b[j] then Tagged(' ', a[i])
    else if down >= right then Tagged('-', a[i]) else Tagged('+', b[j])
  }

  lemma StayOnTrack(d: seq<Tagged>, a: seq<Line>, b: seq<Line>, i: nat, j: nat)
    requires i < |a| && j < |b| && OnTrack(d, a, b, i, j)
    ensures var line := NextLine(a, b, i, j, Lcs(a[i + 1..], b[j..]), Lcs(a[i..], b[j + 1..]));
            OnTrack(d + [line], a, b, if line.tag == '+' then i else i + 1, if line.tag == '-' then j else j + 1)
  {
    var line := NextLine(a, b, i, j, Lcs(a[i + 1..], b[j..]), Lcs(a[i..], b[j + 1..]));
    Emit(d, line, ' ', '-');
    Emit(d, line, ' ', '+');
    assert a[i..][1..] == a[i + 1..] && b[j..][1..] == b[j + 1..];
    assert a[..i + 1] == a[..i] + [a[i]] && b[..j + 1] == b[..j] + [b[j]];
  }

  /**
    The line at `t` is the right one after what was printed before it: a common
    line is kept, and otherwise a deletion comes first unless it would lose a
    kept line.
   */
  ghost predicate Rightly(d: seq<Tagged>, a: seq<Line>, b: seq<Line>, t: nat)
    requires t < |d|
  {
    var i, j := |Select(d[..t], ' ', '-')|, |Select(d[..t], ' ', '+')|;
    if i < |a| && j < |b| then
      && (d[t].tag == ' ' <==> a[i] == b[j])
      && (d[t].tag == '-' <==> a[i] != b[j] && Lcs(a[i + 1..], b[j..]) >= Lcs(a[i..], b[j + 1..]))
    else
      d[t].tag == if i < |a| then '-' else '+'
  }

  ghost predicate Greedy(d: seq<Tagged>, a: seq<Line>, b: seq<Line>) {
    forall t: nat | t < |d| :: Rightly(d, a, b, t)
  }

  lemma GreedySnoc(d: seq<Tagged>, a: seq<Line>, b: seq<Line>, x: Tagged)
    requires Greedy(d, a, b) && Rightly(d + [x], a, b, |d|)
    ensures Greedy(d + [x], a, b)
  {
    forall t: nat | t < |d| + 1 ensures Rightly(d + [x], a, b, t) {
      if t < |d| {
        assert (d + [x])[..t] == d[..t] && (d + [x])[t] == d[t];
        assert Rightly(d, a, b, t);
      }
    }
  }

  /** One more line on track. */
  lemma NextRight(d: seq<Tagged>, a: seq<Line>, b: seq<Line>, i: nat, j: nat, x: Tagged)
    requires i <= |a| && j <= |b| && OnTrack(d, a, b, i, j) && Greedy(d, a, b)
    requires if i < |a| && j < |b| then x == NextLine(a, b, i, j, Lcs(a[i + 1..], b[j..]), Lcs(a[i..], b[j + 1..]))
             else x.tag == if i < |a| then '-' else '+'
    ensures Greedy(d + [x], a, b)
  {
    assert (d + [x])[..|d|] == d;
    GreedySnoc(d, a, b, x);
  }

  lemma {:induction false} RestRight(d: seq<Tagged>, a: seq<Line>, b: seq<Line>, i: nat, j: nat)
    requires i <= |a| && j <= |b| && OnTrack(d, a, b, i, j) && Greedy(d, a, b) && (i == |a| || j == |b|)
    ensures Greedy(d + (TagAll('-', a[i..]) + TagAll('+', b[j..])), a, b)
    decreases |a| - i + |b| - j
  {
    var rest := TagAll('-', a[i..]) + TagAll('+', b[j..]);
    if i < |a| {
      OneMore(d, a, b, i, j, Tagged('-', a[i]));
      RestRight(d + [Tagged('-', a[i])], a, b, i + 1, j);
      assert rest == [Tagged('-', a[i])] + (TagAll('-', a[i + 1..]) + TagAll('+', b[j..]));
      assert d + rest == d + [Tagged('-', a[i])] + (TagAll('-', a[i + 1..]) + TagAll('+', b[j..]));
    } else if j < |b| {
      OneMore(d, a, b, i, j, Tagged('+', b[j]));
      RestRight(d + [Tagged('+', b[j])], a, b, i, j + 1);
      assert rest == [Tagged('+', b[j])] + (TagAll('-', a[i..]) + TagAll('+', b[j + 1..]));
      assert d + rest == d + [Tagged('+', b[j])] + (TagAll('-', a[i..]) + TagAll('+', b[j + 1..]));
    } else {
      assert d + rest == d;
    }
  }

  /** One of the lines left over when the other input is used up. */
  lemma OneMore(d: seq<Tagged>, a: seq<Line>, b: seq<Line>, i: nat, j: nat, x: Tagged)
    requires i <= |a| && j <= |b| && OnTrack(d, a, b, i, j) && Greedy(d, a, b)
    requires (i < |a| && j == |b| && x == Tagged('-', a[i])) || (i == |a| && j < |b| && x == Tagged('+', b[j]))
    ensures OnTrack(d + [x], a, b, if i < |a| then i + 1 else i, if i < |a| then j else j + 1)
    ensures Greedy(d + [x], a, b)
  {
    NextRight(d, a, b, i, j, x);
    Emit(d, x, ' ', '-');
    Emit(d, x, ' ', '+');
    if i < |a| {
      assert a[..i + 1] == a[..i] + [a[i]];
    } else {
      assert b[..j + 1] == b[..j] + [b[j]];
    }
  }

  lemma Rest(x: seq<Line>, y: seq<Line>)
    ensures var r := TagAll('-', x) + TagAll('+', y);
            Select(r, ' ', '-') == x && Select(r, ' ', '+') == y && Kept(r) == 0
  {
    SelectTagAll('-', x, ' ', '-');
    SelectTagAll('-', x, ' ', '+');
    SelectTagAll('+', y, ' ', '-');
    SelectTagAll('+', y, ' ', '+');
    SelectAppend(TagAll('-', x), TagAll('+', y), ' ', '-');
    SelectAppend(TagAll('-', x), TagAll('+', y), ' ', '+');
    KeptAppend(TagAll('-', x), TagAll('+', y));
  }

  lemma Finish(d: seq<Tagged>, a: seq<Line>, b: seq<Line>, i: nat, j: nat)
    requires i <= |a| && j <= |b| && OnTrack(d, a, b, i, j) && (i == |a| || j == |b|)
    ensures BestDiff(d + (TagAll('-', a[i..]) + TagAll('+', b[j..])), a, b)
  {
    var rest := TagAll('-', a[i..]) + TagAll('+', b[j..]);
    Rest(a[i..], b[j..]);
    SelectAppend(d, rest, ' ', '-');
    SelectAppend(d, rest, ' ', '+');
    KeptAppend(d, rest);
    assert a == a[..i] + a[i..] && b == b[..j] + b[j..];
    BestFromTable(d + rest, a, b);
  }

  /** Walk the table from the top left, preferring a deletion on ties. */
  method Traceback(a: seq<Line>, b: seq<Line>, lcs: array2<nat>) returns (d: seq<Tagged>)
    requires lcs.Length0 == |a| + 1 && lcs.Length1 == |b| + 1
    requires forall i, j | 0 <= i <= |a| && 0 <= j <= |b| :: lcs[i, j] == Table(a, b, i, j)
    ensures BestDiff(d, a, b) && OnlyTags(d) && Greedy(d, a, b)
  {
    d := [];
    var i, j := 0, 0;
    assert a[0..] == a && b[0..] == b;
    while i < |a| && j < |b|
      invariant 0 <= i <= |a| && 0 <= j <= |b|
      invariant OnTrack(d, a, b, i, j) && Greedy(d, a, b)
      decreases |a| - i + |b| - j
    {
      StayOnTrack(d, a, b, i, j);
      TableIsLcs(a, b, i + 1, j);
      TableIsLcs(a, b, i, j + 1);
      NextRight(d, a, b, i, j, NextLine(a, b, i, j, lcs[i + 1, j], lcs[i, j + 1]));
      if a[i] == b[j] {
        d := d + [Tagged(' ', a[i])];
        i := i + 1;
        j := j + 1;
      } else if lcs[i + 1, j] >= lcs[i, j + 1] {
        d := d + [Tagged('-', a[i])];
        i := i + 1;
      } else {
        d := d + [Tagged('+', b[j])];
        j := j + 1;
      }
    }
    Finish(d, a, b, i, j);
    RestRight(d, a, b, i, j);
    d := d + (TagAll('-', a[i..]) + TagAll('+', b[j..]));
  }

  // ----- text in, text out

  /** Position of the first newline, or the length of `s`. */
  function Newline(s: string): (k: nat)
    ensures k <= |s| && (k < |s| ==> s[k] == '\n') && '\n' !in s[..k]
  {
    if s == "" || s[0] == '\n' then 0
    else
      var k := 1 + Newline(s[1..]);
      assert s[..k] == [s[0]] + s[1..][..k - 1];
      k
  }

  /** The newline-terminated pieces of `s`, and the unterminated last one unless it is empty. */
  function Pieces(s: string): seq<string>
    decreases |s|
  {
    if s == "" then []
    else
      var k := Newline(s);
      if k == |s| then [s] else [s[..k]] + Pieces(s[k + 1..])
  }

  /** The line that a newline at `k` ends. */
  function LineAt(s: string, k: nat): Line
    requires k < |s|
  {
    if k > 0 && s[k - 1] == '\r' then s[..k - 1] else s[..k]
  }

  /** `str::lines`: a terminated line also loses one carriage return. */
  function Lines(s: string): (r: seq<Line>)
    ensures forall i | 0 <= i < |r| :: '\n' !in r[i]
    decreases |s|
  {
    if s == "" then []
    else
      var k := Newline(s);
      if k == |s| then assert s[..k] == s; [s]
      else [LineAt(s, k)] + Lines(s[k + 1..])
  }

  /** What ends each line in the text: a newline, with or without a carriage return, or the end of the text. */
  function Endings(s: string): seq<string>
    decreases |s|
  {
    if s == "" then []
    else
      var k := Newline(s);
      if k == |s| then [""]
      else [if k > 0 && s[k - 1] == '\r' then "\r\n" else "\n"] + Endings(s[k + 1..])
  }

  function Glue(ls: seq<Line>, ends: seq<string>): string
    requires |ls| == |ends|
  {
    if ls == [] then "" else ls[0] + ends[0] + Glue(ls[1..], ends[1..])
  }

  predicate EndsInReturn(l: Line) { l != "" && l[|l| - 1] == '\r' }

  /** A line and its ending: no newline is left in the line, and no ending is left on it. */
  predicate CleanCut(l: Line, end: string, last: bool) {
    && '\n' !in l
    && (end == "\r\n" || (end == "\n" && !EndsInReturn(l)) || (end == "" && last && l != ""))
  }

  lemma LineAtCut(s: string, k: nat)
    requires k < |s| && s[k] == '\n' && '\n' !in s[..k]
    ensures var end := if k > 0 && s[k - 1] == '\r' then "\r\n" else "\n";
            LineAt(s, k) + end == s[..k + 1] && CleanCut(LineAt(s, k), end, false)
  {
    assert forall c <- LineAt(s, k) :: c in s[..k];
    assert s[..k + 1] == s[..k] + ['\n'];
    if k > 0 && s[k - 1] == '\r' {
      assert s[..k] == s[..k - 1] + ['\r'];
    }
  }

  /** The first line of a text that has a newline. */
  lemma FirstLine(s: string)
    requires s != "" && Newline(s) < |s|
    ensures Lines(s) == [LineAt(s, Newline(s))] + Lines(s[Newline(s) + 1..])
    ensures Endings(s) != [] && Endings(s)[1..] == Endings(s[Newline(s) + 1..])
    ensures Lines(s)[0] + Endings(s)[0] == s[..Newline(s) + 1] && CleanCut(Lines(s)[0], Endings(s)[0], false)
  {
    LineAtCut(s, Newline(s));
  }

  /** The text is its lines with their endings. */
  lemma {:induction false} LinesSpell(s: string)
    ensures |Lines(s)| == |Endings(s)| && Glue(Lines(s), Endings(s)) == s
    decreases |s|
  {
    if s != "" {
      var k := Newline(s);
      if k < |s| {
        LinesSpell(s[k + 1..]);
        FirstLine(s);
        assert s == s[..k + 1] + s[k + 1..];
      } else {
        assert Glue([s], [""]) == s + "" + Glue([s][1..], [""][1..]);
      }
    }
  }

  /** Every line is cut clean, and only the last can lack a newline. */
  lemma {:induction false} LinesCut(s: string, i: nat)
    requires i < |Lines(s)|
    ensures |Lines(s)| == |Endings(s)| && CleanCut(Lines(s)[i], Endings(s)[i], i == |Lines(s)| - 1)
    decreases |s|
  {
    LinesSpell(s);
    if Newline(s) < |s| {
      FirstLine(s);
      if i > 0 {
        LinesCut(s[Newline(s) + 1..], i - 1);
      }
    } else {
      assert s[..|s|] == s;
    }
  }

  function Render(d: seq<Tagged>): string {
    if d == [] then "" else [d[0].tag] + d[0].text + "\n" + Render(d[1..])
  }

  /** Read a rendered diff back: the first character of a line is its tag. */
  function Parse(text: string): seq<Tagged> {
    var ps := Pieces(text);
    seq(|ps|, i requires 0 <= i < |ps| =>
      if ps[i] == "" then Tagged('\n', "") else Tagged(ps[i][0], ps[i][1..]))
  }

  predicate Renderable(d: seq<Tagged>) {
    forall i | 0 <= i < |d| :: d[i].tag != '\n' && '\n' !in d[i].text
  }

  lemma {:induction false} NewlineAfter(head: string, tail: string)
    requires '\n' !in head
    ensures Newline(head + ("\n" + tail)) == |head|
  {
    if head != "" {
      assert (head + ("\n" + tail))[1..] == head[1..] + ("\n" + tail);
      NewlineAfter(head[1..], tail);
    }
  }

  lemma PiecesCons(head: string, tail: string)
    requires '\n' !in head
    ensures Pieces(head + ("\n" + tail)) == [head] + Pieces(tail)
  {
    var text := head + ("\n" + tail);
    NewlineAfter(head, tail);
    assert text[..|head|] == head && text[|head| + 1..] == tail;
  }

  /** The printed lines. */
  function Printed(d: seq<Tagged>): seq<string> {
    seq(|d|, i requires 0 <= i < |d| => [d[i].tag] + d[i].text)
  }

  lemma RenderCons(d: seq<Tagged>)
    requires d != []
    ensures Render(d) == Printed(d)[0] + ("\n" + Render(d[1..])) && Printed(d) == [Printed(d)[0]] + Printed(d[1..])
  {
  }

  lemma {:induction false} PiecesOfRender(d: seq<Tagged>)
    requires Renderable(d)
    ensures Pieces(Render(d)) == Printed(d)
  {
    if d != [] {
      assert '\n' !in Printed(d)[0];
      RenderCons(d);
      PiecesCons(Printed(d)[0], Render(d[1..]));
      PiecesOfRender(d[1..]);
    }
  }

  /** The rendered text determines the diff. */
  lemma ParseRender(d: seq<Tagged>)
    requires Renderable(d)
    ensures Parse(Render(d)) == d
  {
    PiecesOfRender(d);
  }

  lemma {:induction false} SelectMember(d: seq<Tagged>, i: nat, x: char, y: char)
    requires i < |d| && (d[i].tag == x || d[i].tag == y)
    ensures d[i].text in Select(d, x, y)
  {
    if i > 0 {
      SelectMember(d[1..], i - 1, x, y);
    }
  }

  lemma LinesRenderable(d: seq<Tagged>, up: string, ours: string)
    requires OnlyTags(d) && Select(d, ' ', '-') == Lines(up) && Select(d, ' ', '+') == Lines(ours)
    ensures Renderable(d)
  {
    forall i | 0 <= i < |d| ensures d[i].tag != '\n' && '\n' !in d[i].text {
      if d[i].tag == '+' { SelectMember(d, i, ' ', '+'); } else { SelectMember(d, i, ' ', '-'); }
    }
  }

  predicate Terminated(text: string) { text == "" || text[|text| - 1] == '\n' }

  lemma {:induction false} RenderTerminated(d: seq<Tagged>)
    ensures Terminated(Render(d))
  {
    if d != [] {
      RenderTerminated(d[1..]);
    }
  }

  /** `unified_diff` on decoded text. */
  method UnifiedDiff(upstream: string, ours: string) returns (r: Report)
    ensures r.TooLarge? <==> |Lines(upstream)| > 500 || |Lines(ours)| > 500
    ensures r.TooLarge? ==> r == TooLarge(|Lines(upstream)|, |Lines(ours)|)
    ensures r.Diff? ==> BestDiff(Parse(r.text), Lines(upstream), Lines(ours)) && OnlyTags(Parse(r.text))
    ensures r.Diff? ==> Greedy(Parse(r.text), Lines(upstream), Lines(ours)) && Terminated(r.text)
  {
    var a, b := Lines(upstream), Lines(ours);
    if |a| > MAX_LINES || |b| > MAX_LINES {
      return TooLarge(|a|, |b|);
    }
    var lcs := FillTable(a, b);
    var d := Traceback(a, b, lcs);
    LinesRenderable(d, upstream, ours);
    ParseRender(d);
    RenderTerminated(d);
    r := Diff(Render(d));
  }
}
