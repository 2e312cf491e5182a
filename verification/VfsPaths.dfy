/** Path rules of the virtual file system: what normalisation gives, and what it leaves as it is. */
module VfsPaths {
  import opened Common

  const TRAVERSAL := Exn("System.ArgumentException")

  /** `Replace('\\', '/')`. */
  function Slashed(path: string): string {
    seq(|path|, i requires 0 <= i < |path| => if path[i] == '\\' then '/' else path[i])
  }

  function Split(s: string): seq<string> {
    var i := Separator(s);
    if i == |s| then [s] else [s[..i]] + Split(s[i + 1..])
  }

  /** The entries of a split, trimmed, without empty ones. */
  function TrimmedEntries(parts: seq<string>): seq<string> {
    if parts == [] then []
    else (if Trim(parts[0]) == "" then [] else [Trim(parts[0])]) + TrimmedEntries(parts[1..])
  }

  /** The segments without `.`; a `..` is rejected. */
  function Kept(segments: seq<string>): Attempt<seq<string>> {
    if segments == [] then Returned([])
    else if segments[0] == "." then Kept(segments[1..])
    else if segments[0] == ".." then Threw(TRAVERSAL)
    else After([segments[0]], Kept(segments[1..]))
  }

  function After(done: seq<string>, rest: Attempt<seq<string>>): Attempt<seq<string>> {
    match rest
    case Returned(segments) => Returned(done + segments)
    case Threw(exn) => Threw(exn)
  }

  function Join(segments: seq<string>): string {
    if segments == [] then ""
    else if |segments| == 1 then segments[0]
    else segments[0] + "/" + Join(segments[1..])
  }

  function Segments(path: string): seq<string> {
    TrimmedEntries(Split(Trim(Slashed(path))))
  }

  /** `VfsPathRules.Normalize`. */
  function Normalized(path: string): Attempt<string> {
    if IsBlank(path) then Threw(TRAVERSAL)
    else if Trim(Slashed(path)) == "/" || Trim(Slashed(path)) == "." then Returned("")
    else
      match Kept(Segments(path))
      case Returned(segments) => Returned(Join(segments))
      case Threw(exn) => Threw(exn)
  }

  method Normalize(path: string) returns (r: Attempt<string>)
    ensures r == Normalized(path)
  {
    if IsBlank(path) {
      return Threw(TRAVERSAL);
    }
    var normalized := Trim(Slashed(path));
    if normalized == "/" || normalized == "." {
      return Returned("");
    }
    var segments := TrimmedEntries(Split(normalized));
    var result := [];
    assert segments[0..] == segments;
    NothingBefore(Kept(segments));
    for i := 0 to |segments|
      invariant Kept(segments) == After(result, Kept(segments[i..]))
    {
      var segment := segments[i];
      assert segments[i..][1..] == segments[i + 1..];
      if segment == "." {
        continue;
      }
      if segment == ".." {
        return Threw(TRAVERSAL);
      }
      AfterTwice(result, [segment], Kept(segments[i + 1..]));
      result := result + [segment];
    }
    assert result + [] == result;
    return Returned(Join(result));
  }

  lemma NothingBefore(rest: Attempt<seq<string>>)
    ensures After([], rest) == rest
  {
    if rest.Returned? {
      assert [] + rest.result == rest.result;
    }
  }

  lemma AfterTwice(a: seq<string>, b: seq<string>, rest: Attempt<seq<string>>)
    ensures After(a, After(b, rest)) == After(a + b, rest)
  {
    if rest.Returned? {
      assert a + (b + rest.result) == (a + b) + rest.result;
    }
  }

  // ----- normal forms -----

  predicate IsTrimmed(s: string) {
    s != [] && !IsWhiteSpace(s[0]) && !IsWhiteSpace(s[|s| - 1])
  }

  /** A segment as normalisation leaves it. */
  predicate IsClean(segment: string) {
    && IsTrimmed(segment)
    && SingleSegment(segment)
    && '\\' !in segment
    && segment != "."
    && segment != ".."
  }

  predicate AreClean(segments: seq<string>) {
    forall s | s in segments :: IsClean(s)
  }

  lemma {:induction false} TrimStartTrims(s: string)
    ensures TrimStart(s) != [] ==> !IsWhiteSpace(TrimStart(s)[0])
    ensures forall c | c in TrimStart(s) :: c in s
  {
    if s != [] && IsWhiteSpace(s[0]) {
      TrimStartTrims(s[1..]);
    }
  }

  lemma {:induction false} TrimEndTrims(s: string)
    ensures TrimEnd(s) <= s
    ensures TrimEnd(s) != [] ==> !IsWhiteSpace(TrimEnd(s)[|TrimEnd(s)| - 1])
  {
    if s != [] && IsWhiteSpace(s[|s| - 1]) {
      TrimEndTrims(s[..|s| - 1]);
    }
  }

  lemma TrimTrims(s: string)
    ensures Trim(s) != "" ==> IsTrimmed(Trim(s))
    ensures forall c | c in Trim(s) :: c in s
  {
    TrimStartTrims(s);
    TrimEndTrims(TrimStart(s));
  }

  lemma {:induction false} SplitParts(s: string)
    ensures forall p | p in Split(s) :: SingleSegment(p) && forall c | c in p :: c in s
  {
    var i := Separator(s);
    if i < |s| {
      SplitParts(s[i + 1..]);
    } else {
      assert s[..i] == s;
    }
  }

  lemma {:induction false} EntriesAreTrimmed(parts: seq<string>)
    requires forall p | p in parts :: SingleSegment(p) && '\\' !in p
    ensures forall s | s in TrimmedEntries(parts) :: IsTrimmed(s) && SingleSegment(s) && '\\' !in s
  {
    if parts != [] {
      var head := Trim(parts[0]);
      TrimTrims(parts[0]);
      EntriesAreTrimmed(parts[1..]);
      assert parts[0] in parts;
      assert '/' !in head && '\\' !in head;
      assert forall s | s in TrimmedEntries(parts) :: s == head != "" || s in TrimmedEntries(parts[1..]);
    }
  }

  lemma {:induction false} KeptAreClean(segments: seq<string>)
    requires forall s | s in segments :: IsTrimmed(s) && SingleSegment(s) && '\\' !in s
    ensures Kept(segments).Returned? <==> ".." !in segments
    ensures Kept(segments).Returned? ==> AreClean(Kept(segments).result)
  {
    if segments != [] {
      KeptAreClean(segments[1..]);
    }
  }

  lemma SegmentsAreTrimmed(path: string)
    ensures forall s | s in Segments(path) :: IsTrimmed(s) && SingleSegment(s) && '\\' !in s
  {
    var trimmed := Trim(Slashed(path));
    TrimTrims(Slashed(path));
    SplitParts(trimmed);
    EntriesAreTrimmed(Split(trimmed));
  }

  /** A normalised path is joined of clean segments. */
  lemma NormalizedIsClean(path: string) returns (segments: seq<string>)
    requires Normalized(path).Returned?
    ensures AreClean(segments) && Normalized(path).result == Join(segments)
  {
    segments := [];
    if Trim(Slashed(path)) != "/" && Trim(Slashed(path)) != "." {
      SegmentsAreTrimmed(path);
      KeptAreClean(Segments(path));
      segments := Kept(Segments(path)).result;
    }
  }

  lemma {:induction false} FirstSlash(a: string, b: string)
    requires SingleSegment(a)
    ensures Separator(a + "/" + b) == |a|
  {
    if a != [] {
      FirstSlash(a[1..], b);
      assert (a + "/" + b)[1..] == a[1..] + "/" + b;
    }
  }

  lemma {:induction false} NoSlash(a: string)
    requires SingleSegment(a)
    ensures Separator(a) == |a|
  {
    if a != [] {
      NoSlash(a[1..]);
    }
  }

  lemma {:induction false} SplitJoin(segments: seq<string>)
    requires segments != [] && forall s | s in segments :: SingleSegment(s)
    ensures Split(Join(segments)) == segments
  {
    if |segments| == 1 {
      NoSlash(segments[0]);
    } else {
      var rest := Join(segments[1..]);
      FirstSlash(segments[0], rest);
      SplitJoin(segments[1..]);
      var s := segments[0] + "/" + rest;
      assert s[..|segments[0]|] == segments[0] && s[|segments[0]| + 1..] == rest;
    }
  }

  lemma {:induction false} CleanJoin(segments: seq<string>)
    requires segments != [] && AreClean(segments)
    ensures IsTrimmed(Join(segments)) && '\\' !in Join(segments)
    ensures Join(segments)[0] != '/'
    ensures |segments| > 1 ==> |Join(segments)| > 1 && '/' in Join(segments)
  {
    assert IsClean(segments[0]);
    if |segments| > 1 {
      CleanJoin(segments[1..]);
    }
  }

  lemma {:induction false} CleanEntries(segments: seq<string>)
    requires AreClean(segments)
    ensures TrimmedEntries(segments) == segments && Kept(segments) == Returned(segments)
  {
    if segments != [] {
      assert IsClean(segments[0]);
      CleanEntries(segments[1..]);
    }
  }

  /** A path joined of clean segments is left as it is, if it has any. */
  lemma CleanIsNormal(segments: seq<string>)
    requires segments != [] && AreClean(segments)
    ensures Normalized(Join(segments)) == Returned(Join(segments))
  {
    var path := Join(segments);
    CleanJoin(segments);
    assert Slashed(path) == path;
    assert !IsBlank(path);
    assert IsClean(segments[0]);
    SplitJoin(segments);
    CleanEntries(segments);
  }

  /**
    Normalisation is idempotent exactly on what is not the root: a normalised path is normalised to itself
    if and only if it is not empty. The empty path stands for the root, and is itself no valid path.
  */
  lemma NormalizedTwice(path: string)
    requires Normalized(path).Returned?
    ensures Normalized(Normalized(path).result) == Normalized(path) <==> Normalized(path).result != ""
    ensures Normalized(path).result == "" <==> IsBlank(Normalized(path).result)
  {
    var segments := NormalizedIsClean(path);
    if segments != [] {
      CleanIsNormal(segments);
      CleanJoin(segments);
    }
  }

  /** A path is rejected exactly when it is blank or goes up. */
  lemma RejectedWhen(path: string)
    ensures Normalized(path).Threw? <==> IsBlank(path) || ".." in Segments(path)
  {
    SegmentsAreTrimmed(path);
    KeptAreClean(Segments(path));
    RootEntries();
  }

  lemma RootEntries()
    ensures TrimmedEntries(Split("/")) == [] && TrimmedEntries(Split(".")) == ["."]
  {
    NoSlash(".");
    SplitJoin(["."]);
    SplitJoin(["", ""]);
    assert Join(["."]) == "." && Join(["", ""]) == "/";
    assert Trim("") == "" && Trim(".") == ".";
    assert TrimmedEntries([""]) == [] && TrimmedEntries(["", ""]) == [];
    assert TrimmedEntries(["."]) == ["."];
  }

  // ----- what is kept -----

  /** The trimmed parts of a path that name something, in order. */
  function Proper(parts: seq<string>): seq<string> {
    if parts == [] then []
    else
      var part := Trim(parts[0]);
      (if part == "" || part == "." then [] else [part]) + Proper(parts[1..])
  }

  ghost predicate GoesUp(parts: seq<string>) {
    exists p | p in parts :: Trim(p) == ".."
  }

  /**
    A path that is not blank and does not go up is normalised to all the parts between its slashes, of
    either kind, that name something, trimmed, in order; every other path is rejected.
  */
  lemma NormalizedKeepsAll(path: string)
    ensures
      var parts := Split(Slashed(path));
      && Join(parts) == Slashed(path)
      && Normalized(path)
         == if IsBlank(path) || GoesUp(parts) then Threw(TRAVERSAL) else Returned(Join(Proper(parts)))
  {
    var parts := Split(Slashed(path));
    JoinSplit(Slashed(path));
    TrimKeepsEntries(Slashed(path));
    EntriesAreProper(parts);
    var trimmed := Trim(Slashed(path));
    if trimmed == "/" || trimmed == "." {
      RootEntries();
    }
  }

  lemma {:induction false} EntriesAreProper(parts: seq<string>)
    ensures Kept(TrimmedEntries(parts)) == if GoesUp(parts) then Threw(TRAVERSAL) else Returned(Proper(parts))
  {
    if parts != [] {
      var part, rest := Trim(parts[0]), TrimmedEntries(parts[1..]);
      EntriesAreProper(parts[1..]);
      assert GoesUp(parts) <==> part == ".." || GoesUp(parts[1..]);
      assert [] + rest == rest && [] + Proper(parts[1..]) == Proper(parts[1..]);
      KeptUnfolds(part, rest);
    }
  }

  lemma KeptUnfolds(part: string, rest: seq<string>)
    ensures Kept([part] + rest)
         == if part == "." then Kept(rest) else if part == ".." then Threw(TRAVERSAL) else After([part], Kept(rest))
  {
    assert ([part] + rest)[1..] == rest;
  }

  lemma {:induction false} JoinSplit(s: string)
    ensures Split(s) != [] && Join(Split(s)) == s
  {
    var i := Separator(s);
    if i < |s| {
      JoinSplit(s[i + 1..]);
      assert s == s[..i] + "/" + s[i + 1..];
      assert Split(s)[1..] == Split(s[i + 1..]);
    }
  }

  /** White space around a whole path is white space around its first and its last part. */
  lemma TrimKeepsEntries(s: string)
    ensures TrimmedEntries(Split(Trim(s))) == TrimmedEntries(Split(s))
  {
    TrimStartKeepsEntries(s);
    TrimEndKeepsEntries(TrimStart(s));
  }

  lemma {:induction false} TrimStartKeepsEntries(s: string)
    ensures TrimmedEntries(Split(TrimStart(s))) == TrimmedEntries(Split(s))
  {
    if s != [] && IsWhiteSpace(s[0]) {
      TrimStartKeepsEntries(s[1..]);
      FirstCharacter(s[0], s[1..]);
      assert s == [s[0]] + s[1..];
      assert ([s[0]] + Split(s[1..])[0])[1..] == Split(s[1..])[0];
    }
  }

  lemma FirstCharacter(c: char, s: string)
    requires c != '/'
    ensures Split(s) != [] && Split([c] + s) == [[c] + Split(s)[0]] + Split(s)[1..]
  {
    var a, more := FirstPart(s);
    if s == a {
      SplitSingle([c] + a);
    } else {
      assert [c] + s == ([c] + a) + "/" + more;
      SplitAtSlash([c] + a, more);
      assert ([a] + Split(more))[0] == a && ([a] + Split(more))[1..] == Split(more);
    }
  }

  lemma FirstPart(s: string) returns (a: string, more: string)
    ensures SingleSegment(a)
    ensures (s == a && Split(s) == [a]) || (s == a + "/" + more && Split(s) == [a] + Split(more))
  {
    var i := Separator(s);
    a := s[..i];
    if i < |s| {
      more := s[i + 1..];
      assert s == s[..i] + "/" + s[i + 1..];
    } else {
      more := "";
    }
  }

  lemma SplitSingle(a: string)
    requires SingleSegment(a)
    ensures Split(a) == [a]
  {
    NoSlash(a);
  }

  lemma SplitAtSlash(a: string, more: string)
    requires SingleSegment(a)
    ensures Split(a + "/" + more) == [a] + Split(more)
  {
    FirstSlash(a, more);
    var s := a + "/" + more;
    assert s[..|a|] == a && s[|a| + 1..] == more;
  }

  lemma {:induction false} TrimEndKeepsEntries(s: string)
    ensures TrimmedEntries(Split(TrimEnd(s))) == TrimmedEntries(Split(s))
  {
    if s != [] && IsWhiteSpace(s[|s| - 1]) {
      TrimEndKeepsEntries(s[..|s| - 1]);
      var c := s[|s| - 1];
      var front, last := LastCharacter(s[..|s| - 1], c);
      assert s == s[..|s| - 1] + [c];
      LastIsTrimmed(last, c);
      LastEntry(front, last, last + [c]);
    }
  }

  lemma LongerSplit(s: string, a: string, more: string, c: char)
    requires SingleSegment(a) && s == a + "/" + more
    ensures Split(s + [c]) == [a] + Split(more + [c])
  {
    assert s + [c] == a + "/" + (more + [c]);
    SplitAtSlash(a, more + [c]);
  }

  lemma Prepended(a: string, rest: seq<string>, last: string)
    ensures [a] + (rest + [last]) == ([a] + rest) + [last]
  {
  }

  lemma {:induction false} LastCharacter(s: string, c: char) returns (front: seq<string>, last: string)
    requires c != '/'
    ensures Split(s) == front + [last] && Split(s + [c]) == front + [last + [c]]
    decreases |s|
  {
    var a, more := FirstPart(s);
    if s == a {
      front, last := [], a;
      SplitSingle(a + [c]);
      assert [] + [last] == [last] && [] + [last + [c]] == [last + [c]];
    } else {
      var rest;
      rest, last := LastCharacter(more, c);
      LongerSplit(s, a, more, c);
      front := [a] + rest;
      Prepended(a, rest, last);
      Prepended(a, rest, last + [c]);
    }
  }

  lemma {:induction false} LastEntry(front: seq<string>, a: string, b: string)
    requires Trim(a) == Trim(b)
    ensures TrimmedEntries(front + [a]) == TrimmedEntries(front + [b])
  {
    if front != [] {
      LastEntry(front[1..], a, b);
      assert (front + [a])[1..] == front[1..] + [a] && (front + [b])[1..] == front[1..] + [b];
    }
  }

  lemma {:induction false} LastIsTrimmed(s: string, c: char)
    requires IsWhiteSpace(c)
    ensures Trim(s + [c]) == Trim(s)
  {
    if s != [] && IsWhiteSpace(s[0]) {
      LastIsTrimmed(s[1..], c);
      assert (s + [c])[1..] == s[1..] + [c];
    } else if s != [] {
      assert (s + [c])[..|s|] == s && (s + [c])[0] == s[0];
    } else {
      assert s + [c] == [c] && [c][1..] == [];
    }
  }
}
