/** The pin bumper: exact-count substitutions, composed per file and staged all or nothing. */
module PinBump {
  datatype Substitution = Substitution(path: string, needle: string, replacement: string, expected: nat)

  datatype Error =
    | CannotRead(path: string, reason: string)
    | WrongCount(path: string, expected: nat, needle: string, found: nat)

  datatype Result<+T, +E> = Ok(value: T) | Err(error: E)

  type Reader = string -> Result<string, Error>

  /** One pending write. */
  datatype Write = Write(path: string, contents: string)

  // ----- matches and replacement

  /** The text between the matches of a non-empty needle, left to right without overlap. */
  function SplitOn(s: string, needle: string): (ps: seq<string>)
    requires needle != ""
    ensures ps != []
    decreases |s|
  {
    if |s| < |needle| then [s]
    else if s[..|needle|] == needle then [""] + SplitOn(s[|needle|..], needle)
    else
      var rest := SplitOn(s[1..], needle);
      [[s[0]] + rest[0]] + rest[1..]
  }

  /** The characters as texts. */
  function Each(s: string): seq<string> { seq(|s|, i requires 0 <= i < |s| => [s[i]]) }

  /** An empty needle matches before every character and at the end. */
  function Pieces(s: string, needle: string): (ps: seq<string>)
    ensures ps != []
  {
    if needle != "" then SplitOn(s, needle)
    else [""] + (Each(s) + [""])
  }

  function Join(ps: seq<string>, sep: string): string
    requires ps != []
  {
    if |ps| == 1 then ps[0] else ps[0] + sep + Join(ps[1..], sep)
  }

  function Count(s: string, needle: string): nat { |Pieces(s, needle)| - 1 }

  function Replace(s: string, needle: string, replacement: string): string { Join(Pieces(s, needle), replacement) }

  lemma JoinCons(head: string, ps: seq<string>, sep: string)
    requires ps != []
    ensures Join([head] + ps, sep) == head + sep + Join(ps, sep)
  {
    assert ([head] + ps)[1..] == ps;
  }

  lemma {:induction false} JoinSplit(s: string, needle: string)
    requires needle != ""
    ensures Join(SplitOn(s, needle), needle) == s
    decreases |s|
  {
    if |s| >= |needle| {
      if s[..|needle|] == needle {
        var rest := SplitOn(s[|needle|..], needle);
        JoinSplit(s[|needle|..], needle);
        JoinCons("", rest, needle);
        assert "" + needle + s[|needle|..] == s;
      } else {
        var rest := SplitOn(s[1..], needle);
        JoinSplit(s[1..], needle);
        JoinHead([s[0]], rest, needle);
        assert [s[0]] + s[1..] == s;
      }
    }
  }

  lemma JoinHead(c: string, ps: seq<string>, sep: string)
    requires ps != []
    ensures Join([c + ps[0]] + ps[1..], sep) == c + Join(ps, sep)
  {
    assert ([c + ps[0]] + ps[1..])[1..] == ps[1..];
  }

  lemma JoinEach(s: string, sep: string)
    ensures Join(Each(s) + [""], sep) == if s == "" then "" else [s[0]] + sep + Join(Each(s[1..]) + [""], sep)
  {
    if s != "" {
      assert Each(s) + [""] == [[s[0]]] + (Each(s[1..]) + [""]);
      JoinCons([s[0]], Each(s[1..]) + [""], sep);
    }
  }

  lemma ReplaceEmpty(s: string, replacement: string)
    ensures Replace(s, "", replacement) == replacement + Join(Each(s) + [""], replacement)
  {
    JoinCons("", Each(s) + [""], replacement);
    assert "" + replacement == replacement;
  }

  lemma {:induction false} JoinEmpty(s: string)
    ensures Join(Each(s) + [""], "") == s
  {
    JoinEach(s, "");
    if s != "" {
      JoinEmpty(s[1..]);
      assert s == [s[0]] + s[1..];
    }
  }

  /** Replacing a needle by itself changes nothing: the drift check writes nothing new. */
  lemma ReplaceBySelf(s: string, needle: string)
    ensures Replace(s, needle, needle) == s
  {
    if needle != "" {
      JoinSplit(s, needle);
    } else {
      JoinEmpty(s);
      ReplaceEmpty(s, "");
    }
  }

  predicate OccursAt(s: string, needle: string, i: int) {
    0 <= i <= |s| - |needle| && s[i..i + |needle|] == needle
  }

  ghost predicate Contains(s: string, needle: string) {
    exists i :: OccursAt(s, needle, i)
  }

  lemma ContainsTail(s: string, needle: string)
    requires |s| >= |needle| > 0 && s[..|needle|] != needle
    ensures Contains(s, needle) <==> Contains(s[1..], needle)
  {
    if Contains(s, needle) {
      var i :| OccursAt(s, needle, i);
      assert s[1..][i - 1..i - 1 + |needle|] == s[i..i + |needle|];
      assert OccursAt(s[1..], needle, i - 1);
    }
    if Contains(s[1..], needle) {
      var i :| OccursAt(s[1..], needle, i);
      assert s[i + 1..i + 1 + |needle|] == s[1..][i..i + |needle|];
      assert OccursAt(s, needle, i + 1);
    }
  }

  /** A text with no match is a text that does not contain the needle, and is left as it is. */
  lemma {:induction false} NoMatch(s: string, needle: string)
    requires needle != ""
    ensures Count(s, needle) == 0 <==> !Contains(s, needle)
    ensures Count(s, needle) == 0 ==> Pieces(s, needle) == [s]
    decreases |s|
  {
    if |s| >= |needle| {
      if s[..|needle|] == needle {
        assert OccursAt(s, needle, 0);
      } else {
        NoMatch(s[1..], needle);
        ContainsTail(s, needle);
        assert s == [s[0]] + s[1..];
      }
    }
  }

  /** The first occurrence. */
  ghost predicate FirstAt(s: string, needle: string, i: int) {
    OccursAt(s, needle, i) && forall j | 0 <= j < i :: !OccursAt(s, needle, j)
  }

  lemma FirstInTail(s: string, needle: string, i: int)
    requires needle != "" && FirstAt(s, needle, i) && i > 0
    ensures s[..|needle|] != needle && FirstAt(s[1..], needle, i - 1)
  {
    assert !OccursAt(s, needle, 0);
    assert s[0..|needle|] == s[..|needle|];
    assert s[1..][i - 1..i - 1 + |needle|] == s[i..i + |needle|];
    forall j | 0 <= j < i - 1 ensures !OccursAt(s[1..], needle, j) {
      assert !OccursAt(s, needle, j + 1);
      assert s[1..][j..j + |needle|] == s[j + 1..j + 1 + |needle|];
    }
  }

  lemma {:induction false} SplitFirst(s: string, needle: string, i: int)
    requires needle != "" && FirstAt(s, needle, i)
    ensures SplitOn(s, needle) == [s[..i]] + SplitOn(s[i + |needle|..], needle)
    decreases |s|
  {
    if i == 0 {
      assert s[..|needle|] == s[0..|needle|] && s[..0] == "";
    } else {
      FirstInTail(s, needle, i);
      SplitFirst(s[1..], needle, i - 1);
      assert s[1..][i - 1 + |needle|..] == s[i + |needle|..];
      assert [s[0]] + s[1..][..i - 1] == s[..i];
    }
  }

  /**
    What counting and replacing do, from occurrences alone: the first occurrence
    counts and is replaced, and the text behind it is treated the same way.
   */
  lemma AtFirst(s: string, needle: string, replacement: string, i: int)
    requires needle != "" && FirstAt(s, needle, i)
    ensures Count(s, needle) == 1 + Count(s[i + |needle|..], needle)
    ensures Replace(s, needle, replacement) == s[..i] + replacement + Replace(s[i + |needle|..], needle, replacement)
  {
    SplitFirst(s, needle, i);
    JoinCons(s[..i], SplitOn(s[i + |needle|..], needle), replacement);
  }

  /** Without an occurrence there is nothing to count or replace. */
  lemma AtNone(s: string, needle: string, replacement: string)
    requires needle != "" && !Contains(s, needle)
    ensures Count(s, needle) == 0 && Replace(s, needle, replacement) == s
  {
    NoMatch(s, needle);
  }

  lemma Regroup(r: string, c: string, rest: string)
    ensures r + (c + r + rest) == r + c + (r + rest)
  {
  }

  /** An empty needle is counted before every character and at the end. */
  lemma EmptyCount(s: string)
    ensures Count(s, "") == |s| + 1
  {
  }

  /** And replaced there. */
  lemma AtEmpty(s: string, replacement: string)
    ensures s == "" ==> Replace(s, "", replacement) == replacement
    ensures s != "" ==> Replace(s, "", replacement) == replacement + [s[0]] + Replace(s[1..], "", replacement)
  {
    ReplaceEmpty(s, replacement);
    JoinEach(s, replacement);
    if s != "" {
      ReplaceEmpty(s[1..], replacement);
      Regroup(replacement, [s[0]], Join(Each(s[1..]) + [""], replacement));
    }
  }

  // ----- one substitution, and the per-file fold

  /** `apply`. */
  function Apply(contents: string, sub: Substitution): Result<string, Error> {
    var found := Count(contents, sub.needle);
    if found == sub.expected then Ok(Replace(contents, sub.needle, sub.replacement))
    else Err(WrongCount(sub.path, sub.expected, sub.needle, found))
  }

  /** The file's own substitutions, in order, on top of what is on disk. */
  function FileFold(subs: seq<Substitution>, path: string, read: Reader): Result<string, Error>
    decreases |subs|
  {
    if subs == [] then read(path)
    else
      var n := |subs| - 1;
      match FileFold(subs[..n], path, read)
      case Err(e) => Err(e)
      case Ok(text) => if subs[n].path == path then Apply(text, subs[n]) else Ok(text)
  }

  /** One more substitution: on its own file it needs exactly the expected count, and replaces; other files stay. */
  lemma FoldStep(subs: seq<Substitution>, sub: Substitution, path: string, read: Reader)
    ensures FileFold([], path, read) == read(path)
    ensures var before, now := FileFold(subs, path, read), FileFold(subs + [sub], path, read);
            && (before.Err? || path != sub.path ==> now == before)
            && (before.Ok? && path == sub.path ==>
                  (now.Ok? <==> Count(before.value, sub.needle) == sub.expected)
                  && (now.Ok? ==> now.value == Replace(before.value, sub.needle, sub.replacement))
                  && (now.Err? ==> now.error == WrongCount(path, sub.expected, sub.needle, Count(before.value, sub.needle))))
  {
    assert (subs + [sub])[..|subs|] == subs;
  }

  /** The files named, each once, in the order they first appear. */
  function Paths(subs: seq<Substitution>): seq<string>
    decreases |subs|
  {
    if subs == [] then []
    else
      var n := |subs| - 1;
      var ps := Paths(subs[..n]);
      if subs[n].path in ps then ps else ps + [subs[n].path]
  }

  /** The file's text when a substitution that fails is skipped. */
  function Lenient(subs: seq<Substitution>, path: string, read: Reader): Result<string, Error>
    decreases |subs|
  {
    if subs == [] then read(path)
    else
      var n := |subs| - 1;
      var before := Lenient(subs[..n], path, read);
      if subs[n].path == path && Attempt(before, subs[n]).Ok? then Attempt(before, subs[n]) else before
  }

  function Attempt(current: Result<string, Error>, sub: Substitution): Result<string, Error> {
    match current case Ok(text) => Apply(text, sub) case Err(e) => Err(e)
  }

  /** Every failure, in order, each judged on the text that the failures before it left. */
  function Errors(subs: seq<Substitution>, read: Reader): seq<Error>
    decreases |subs|
  {
    if subs == [] then []
    else
      var n := |subs| - 1;
      Errors(subs[..n], read) + match Attempt(Lenient(subs[..n], subs[n].path, read), subs[n]) {
        case Err(e) => [e]
        case Ok(_) => []
      }
  }

  /**
    One more substitution, on the text that the earlier ones left of its file: a
    file that cannot be read and a wrong count are one error each, and neither
    changes any text; the right count replaces, in that file only.
   */
  lemma ErrorStep(subs: seq<Substitution>, sub: Substitution, path: string, read: Reader)
    ensures Errors([], read) == [] && Lenient([], path, read) == read(path)
    ensures var before := Lenient(subs, sub.path, read);
            var fits := before.Ok? && Count(before.value, sub.needle) == sub.expected;
            && Lenient(subs + [sub], path, read) ==
                 (if path == sub.path && fits then Ok(Replace(before.value, sub.needle, sub.replacement)) else Lenient(subs, path, read))
            && Errors(subs + [sub], read) == Errors(subs, read) +
                 (if fits then []
                  else if before.Err? then [before.error]
                  else [WrongCount(sub.path, sub.expected, sub.needle, Count(before.value, sub.needle))])
  {
    assert (subs + [sub])[..|subs|] == subs;
  }

  lemma {:induction false} PathsDistinct(subs: seq<Substitution>)
    ensures forall i, j | 0 <= i < j < |Paths(subs)| :: Paths(subs)[i] != Paths(subs)[j]
    ensures forall s <- subs :: s.path in Paths(subs)
    ensures forall p <- Paths(subs) :: exists s <- subs :: s.path == p
    decreases |subs|
  {
    if subs != [] {
      var n := |subs| - 1;
      PathsDistinct(subs[..n]);
      assert subs == subs[..n] + [subs[n]];
    }
  }

  lemma {:induction false} UnnamedFold(subs: seq<Substitution>, path: string, read: Reader)
    requires path !in Paths(subs)
    ensures FileFold(subs, path, read) == read(path)
    decreases |subs|
  {
    if subs != [] {
      UnnamedFold(subs[..|subs| - 1], path, read);
    }
  }

  /** Every file named can be folded over. */
  predicate AllFold(subs: seq<Substitution>, read: Reader) {
    forall p <- Paths(subs) :: FileFold(subs, p, read).Ok?
  }

  /** As long as nothing fails, skipping failures is folding. */
  lemma {:induction false} LenientIsFold(subs: seq<Substitution>, path: string, read: Reader)
    requires Errors(subs, read) == [] && (path in Paths(subs) || read(path).Ok?)
    ensures Lenient(subs, path, read) == FileFold(subs, path, read) && FileFold(subs, path, read).Ok?
    decreases |subs|
  {
    if subs != [] {
      var n := |subs| - 1;
      if path in Paths(subs[..n]) || read(path).Ok? {
        LenientIsFold(subs[..n], path, read);
      } else {
        UnnamedFold(subs[..n], path, read);
        UnnamedLenient(subs[..n], path, read);
      }
    }
  }

  lemma {:induction false} UnnamedLenient(subs: seq<Substitution>, path: string, read: Reader)
    requires path !in Paths(subs)
    ensures Lenient(subs, path, read) == read(path)
    decreases |subs|
  {
    if subs != [] {
      UnnamedLenient(subs[..|subs| - 1], path, read);
    }
  }

  /** No step fails if and only if every file's fold succeeds. */
  lemma {:induction false} NoErrorMeansAllFold(subs: seq<Substitution>, read: Reader)
    ensures Errors(subs, read) == [] <==> AllFold(subs, read)
    decreases |subs|
  {
    if Errors(subs, read) == [] {
      forall p <- Paths(subs) ensures FileFold(subs, p, read).Ok? {
        LenientIsFold(subs, p, read);
      }
    } else {
      FailureShows(subs, read);
    }
  }

  lemma {:induction false} FailureShows(subs: seq<Substitution>, read: Reader)
    requires Errors(subs, read) != []
    ensures exists p <- Paths(subs) :: FileFold(subs, p, read).Err?
    decreases |subs|
  {
    var n := |subs| - 1;
    if Errors(subs[..n], read) != [] {
      FailureShows(subs[..n], read);
      var p :| p in Paths(subs[..n]) && FileFold(subs[..n], p, read).Err?;
      assert p in Paths(subs) && FileFold(subs, p, read).Err?;
    } else {
      var p := subs[n].path;
      if p in Paths(subs[..n]) {
        LenientIsFold(subs[..n], p, read);
      } else {
        UnnamedFold(subs[..n], p, read);
        UnnamedLenient(subs[..n], p, read);
      }
      assert p in Paths(subs) && FileFold(subs, p, read).Err?;
    }
  }

  /** One write per file, each the file's own fold. */
  function Staged(subs: seq<Substitution>, read: Reader): seq<Write>
    requires AllFold(subs, read)
  {
    var ps := Paths(subs);
    seq(|ps|, i requires 0 <= i < |ps| => Write(ps[i], FileFold(subs, ps[i], read).value))
  }

  /** Position of the pending write for `path`, or the length. */
  method Find(staged: seq<Write>, path: string) returns (k: nat)
    ensures Found(staged, path, k)
  {
    k := 0;
    while k < |staged| && staged[k].path != path
      invariant k <= |staged| && forall i | 0 <= i < k :: staged[i].path != path
    {
      k := k + 1;
    }
  }

  predicate Found(staged: seq<Write>, path: string, k: nat) {
    && k <= |staged| && (k < |staged| ==> staged[k].path == path)
    && forall i | 0 <= i < k :: staged[i].path != path
  }

  /** The text a step works on: the pending write if there is one, else the file. */
  function CurrentText(staged: seq<Write>, k: nat, path: string, read: Reader): Result<string, Error> {
    if k < |staged| then Ok(staged[k].contents) else read(path)
  }

  function Store(staged: seq<Write>, k: nat, w: Write): seq<Write> {
    if k < |staged| then staged[k := w] else staged + [w]
  }

  lemma FoundOnce(staged: seq<Write>, path: string, j: nat, k: nat)
    requires Found(staged, path, j) && Found(staged, path, k)
    ensures j == k
  {
  }

  /** For every path the pending writes and the files on disk together hold the lenient text. */
  ghost predicate Holds(staged: seq<Write>, subs: seq<Substitution>, read: Reader) {
    forall path, k | Found(staged, path, k) :: CurrentText(staged, k, path, read) == Lenient(subs, path, read)
  }

  /** One pending write per path, in order. */
  predicate InOrder(staged: seq<Write>, ps: seq<string>) {
    |staged| == |ps| && forall i | 0 <= i < |ps| :: staged[i].path == ps[i]
  }

  lemma StoreHolds(staged: seq<Write>, subs: seq<Substitution>, sub: Substitution, read: Reader, k: nat)
    requires Holds(staged, subs, read) && Found(staged, sub.path, k)
    ensures var updated := Attempt(CurrentText(staged, k, sub.path, read), sub);
            Holds(if updated.Ok? then Store(staged, k, Write(sub.path, updated.value)) else staged, subs + [sub], read)
  {
    assert (subs + [sub])[..|subs|] == subs;
    var updated := Attempt(CurrentText(staged, k, sub.path, read), sub);
    if updated.Ok? {
      var staged' := Store(staged, k, Write(sub.path, updated.value));
      assert forall i | 0 <= i < |staged| :: staged'[i].path == staged[i].path;
      forall path, j | Found(staged', path, j)
        ensures CurrentText(staged', j, path, read) == Lenient(subs + [sub], path, read)
      {
        if path == sub.path {
          assert Found(staged', path, k);
          FoundOnce(staged', path, j, k);
        } else {
          var j' := if j == |staged'| then |staged| else j;
          assert forall i | 0 <= i < j' :: staged[i].path == staged'[i].path;
          assert Found(staged, path, j');
        }
      }
    } else {
      forall path, j | Found(staged, path, j)
        ensures CurrentText(staged, j, path, read) == Lenient(subs + [sub], path, read)
      {
        if path == sub.path { FoundOnce(staged, path, j, k); }
      }
    }
  }

  lemma StoreInOrder(staged: seq<Write>, subs: seq<Substitution>, sub: Substitution, k: nat, text: string)
    requires InOrder(staged, Paths(subs)) && Found(staged, sub.path, k)
    ensures InOrder(Store(staged, k, Write(sub.path, text)), Paths(subs + [sub]))
  {
    assert (subs + [sub])[..|subs|] == subs;
    assert forall i | 0 <= i < |staged| :: staged[i].path in Paths(subs);
    if sub.path in Paths(subs) {
      var i :| 0 <= i < |Paths(subs)| && Paths(subs)[i] == sub.path;
      assert staged[i].path == sub.path;
    }
  }

  /** With no failure, what is pending is exactly one write per file, the file's fold. */
  lemma HeldIsStaged(staged: seq<Write>, subs: seq<Substitution>, read: Reader)
    requires Holds(staged, subs, read) && InOrder(staged, Paths(subs)) && Errors(subs, read) == []
    ensures AllFold(subs, read) && staged == Staged(subs, read)
  {
    NoErrorMeansAllFold(subs, read);
    PathsDistinct(subs);
    forall i | 0 <= i < |staged| ensures staged[i] == Staged(subs, read)[i] {
      assert Found(staged, staged[i].path, i);
      LenientIsFold(subs, staged[i].path, read);
    }
  }

  /** `apply_all`. */
  method ApplyAll(subs: seq<Substitution>, read: Reader) returns (r: Result<seq<Write>, seq<Error>>)
    ensures r.Ok? <==> AllFold(subs, read)
    ensures r.Ok? ==> r.value == Staged(subs, read)
    ensures r.Err? ==> r.error == Errors(subs, read)
  {
    var staged: seq<Write> := [];
    var errors: seq<Error> := [];
    for n := 0 to |subs|
      invariant Holds(staged, subs[..n], read) && errors == Errors(subs[..n], read)
      invariant errors == [] ==> InOrder(staged, Paths(subs[..n]))
    {
      var sub := subs[n];
      assert subs[..n + 1] == subs[..n] + [sub] && subs[..n + 1][..n] == subs[..n];
      var k := Find(staged, sub.path);
      var updated := Attempt(CurrentText(staged, k, sub.path, read), sub);
      StoreHolds(staged, subs[..n], sub, read, k);
      match updated {
        case Ok(text) =>
          if errors == [] { StoreInOrder(staged, subs[..n], sub, k, text); }
          staged := Store(staged, k, Write(sub.path, text));
        case Err(e) => errors := errors + [e];
      }
    }
    assert subs[..|subs|] == subs;
    NoErrorMeansAllFold(subs, read);
    if errors == [] {
      HeldIsStaged(staged, subs, read);
      r := Ok(staged);
    } else {
      r := Err(errors);
    }
  }

  /** `--check`: with every needle its own replacement, a staged text is the original text. */
  lemma {:induction false} CheckChangesNothing(subs: seq<Substitution>, path: string, read: Reader)
    requires forall s <- subs :: s.needle == s.replacement
    requires FileFold(subs, path, read).Ok?
    ensures FileFold(subs, path, read) == read(path)
    decreases |subs|
  {
    if subs != [] {
      var n := |subs| - 1;
      CheckChangesNothing(subs[..n], path, read);
      assert subs[n] in subs;
      ReplaceBySelf(FileFold(subs[..n], path, read).value, subs[n].needle);
    }
  }
}
