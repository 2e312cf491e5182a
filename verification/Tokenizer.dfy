/** The simple tokenizer: words separated by white space, with their positions in the text. */
module Tokenizer {
  import opened Common

  datatype Token = Token(value: string, start: nat, end: nat)

  ghost predicate AllWhite(s: string) {
    forall c | c in s :: IsWhiteSpace(c)
  }

  ghost predicate NoWhite(s: string) {
    forall c | c in s :: !IsWhiteSpace(c)
  }

  /** The length of the word the text begins with. */
  function WordLength(text: string): (n: nat)
    ensures n <= |text| && NoWhite(text[..n])
    ensures n < |text| ==> IsWhiteSpace(text[n])
  {
    if text == [] || IsWhiteSpace(text[0]) then 0 else 1 + WordLength(text[1..])
  }

  /** `Split` at white space, without empty entries. */
  function Words(text: string): seq<string> {
    if text == [] then []
    else if IsWhiteSpace(text[0]) then Words(text[1..])
    else [text[..WordLength(text)]] + Words(text[WordLength(text)..])
  }

  predicate OccursAt(text: string, part: string, at: nat) {
    at + |part| <= |text| && text[at..at + |part|] == part
  }

  /** `IndexOf`: the first occurrence of `part` from `from` on, or -1. */
  method IndexOf(text: string, part: string, from: nat) returns (at: int)
    requires from <= |text|
    ensures at == -1 || (from <= at <= |text| && OccursAt(text, part, at))
    ensures forall i | from <= i < (if at == -1 then |text| + 1 else at) :: !OccursAt(text, part, i)
  {
    for i := from to |text| + 1
      invariant forall j | from <= j < i :: !OccursAt(text, part, j)
    {
      if OccursAt(text, part, i) {
        return i;
      }
    }
    return -1;
  }

  /** From `from` on, `t` is the next word: its positions name it, it cannot be prolonged, and only white
      space precedes it. */
  ghost predicate IsNext(text: string, from: nat, t: Token) {
    && from <= t.start < t.end <= |text|
    && t.value == text[t.start..t.end]
    && NoWhite(t.value)
    && AllWhite(text[from..t.start])
    && (t.end < |text| ==> IsWhiteSpace(text[t.end]))
  }

  ghost predicate Follow(text: string, from: nat, tokens: seq<Token>)
    decreases |tokens|
  {
    tokens != [] ==> IsNext(text, from, tokens[0]) && Follow(text, tokens[0].end, tokens[1..])
  }

  function End(from: nat, tokens: seq<Token>): nat {
    if tokens == [] then from else tokens[|tokens| - 1].end
  }

  /** The tokens are the words of the text, in order and at their positions; all the rest is white space. */
  ghost predicate Exact(text: string, from: nat, tokens: seq<Token>) {
    && Follow(text, from, tokens)
    && End(from, tokens) <= |text|
    && AllWhite(text[End(from, tokens)..])
  }

  function Values(tokens: seq<Token>): seq<string> {
    seq(|tokens|, i requires 0 <= i < |tokens| => tokens[i].value)
  }

  lemma {:induction false} WordsSkip(text: string, n: nat)
    requires n <= |text| && AllWhite(text[..n])
    ensures Words(text) == Words(text[n..])
  {
    if n > 0 {
      assert text[0] in text[..n];
      assert text[1..][..n - 1] == text[..n][1..];
      WordsSkip(text[1..], n - 1);
      assert text[1..][n - 1..] == text[n..];
    } else {
      assert text[n..] == text;
    }
  }

  /** How much white space the text begins with. */
  function Gap(text: string): (n: nat)
    ensures n <= |text| && AllWhite(text[..n])
    ensures n < |text| ==> !IsWhiteSpace(text[n])
  {
    if text == [] || !IsWhiteSpace(text[0]) then 0 else 1 + Gap(text[1..])
  }

  lemma WordsUnfold(text: string)
    requires text != [] && !IsWhiteSpace(text[0])
    ensures
      var n := WordLength(text);
      n > 0 && Words(text) == [text[..n]] + Words(text[n..])
  {
  }

  /** The first word of a text is the next token. */
  lemma FirstWord(text: string, from: nat, part: string, rest: seq<string>) returns (t: Token)
    requires from <= |text| && Words(text[from..]) == [part] + rest
    ensures IsNext(text, from, t) && t.value == part && Words(text[t.end..]) == rest
  {
    var gap, n := WordAfterGap(text[from..], part, rest);
    t := Token(part, from + gap, from + gap + n);
    Shift(text, from, gap, n, t);
  }

  lemma WordAfterGap(text: string, part: string, rest: seq<string>) returns (gap: nat, n: nat)
    requires Words(text) == [part] + rest
    ensures 0 < n && gap + n <= |text| && AllWhite(text[..gap])
    ensures text[gap..][..n] == part && NoWhite(part) && Words(text[gap..][n..]) == rest
    ensures gap + n < |text| ==> IsWhiteSpace(text[gap + n])
  {
    gap := Gap(text);
    WordsSkip(text, gap);
    n := HeadWord(text[gap..], part, rest);
  }

  lemma HeadWord(text: string, part: string, rest: seq<string>) returns (n: nat)
    requires Words(text) == [part] + rest && !IsWhiteSpace(text[0])
    ensures 0 < n <= |text| && text[..n] == part && NoWhite(part) && Words(text[n..]) == rest
    ensures n < |text| ==> IsWhiteSpace(text[n])
  {
    n := WordLength(text);
    WordsUnfold(text);
    assert Words(text)[0] == part;
    assert Words(text)[1..] == rest;
  }

  lemma Shift(text: string, from: nat, gap: nat, n: nat, t: Token)
    requires from <= |text| && 0 < n && from + gap + n <= |text|
    requires t == Token(text[from..][gap..][..n], from + gap, from + gap + n)
    requires AllWhite(text[from..][..gap]) && NoWhite(t.value)
    requires gap + n < |text[from..]| ==> IsWhiteSpace(text[from..][gap + n])
    ensures IsNext(text, from, t)
    ensures text[from..][gap..][n..] == text[t.end..]
  {
    assert text[from..][..gap] == text[from..t.start];
    assert text[from..][gap..][..n] == text[t.start..t.end];
  }

  lemma RangeIsWhite(text: string, from: nat, to: nat)
    requires from <= to <= |text| && AllWhite(text[from..to])
    ensures forall i | from <= i < to :: IsWhiteSpace(text[i])
  {
    forall i | from <= i < to
      ensures IsWhiteSpace(text[i])
    {
      assert text[i] in text[from..to];
    }
  }

  lemma RangeIsNotWhite(text: string, from: nat, to: nat)
    requires from <= to <= |text| && NoWhite(text[from..to])
    ensures forall i | from <= i < to :: !IsWhiteSpace(text[i])
  {
    forall i | from <= i < to
      ensures !IsWhiteSpace(text[i])
    {
      assert text[i] in text[from..to];
    }
  }

  lemma OccursHead(text: string, part: string, at: nat)
    requires OccursAt(text, part, at) && part != []
    ensures text[at] == part[0]
  {
  }

  /** `IndexOf` finds the next word where it stands, not earlier inside something else. */
  lemma FoundIsNext(text: string, from: nat, t: Token, at: int)
    requires IsNext(text, from, t)
    requires at == -1 || (from <= at <= |text| && OccursAt(text, t.value, at))
    requires forall i | from <= i < (if at == -1 then |text| + 1 else at) :: !OccursAt(text, t.value, i)
    ensures at == t.start
  {
    assert OccursAt(text, t.value, t.start);
    assert t.value[0] in t.value;
    RangeIsWhite(text, from, t.start);
    if at >= 0 {
      OccursHead(text, t.value, at);
    }
  }

  lemma {:induction false} FollowGrows(text: string, from: nat, tokens: seq<Token>, t: Token)
    requires Follow(text, from, tokens) && IsNext(text, End(from, tokens), t)
    ensures Follow(text, from, tokens + [t])
    decreases |tokens|
  {
    if tokens != [] {
      FollowGrows(text, tokens[0].end, tokens[1..], t);
      assert (tokens + [t])[1..] == tokens[1..] + [t];
    }
  }

  lemma {:induction false} NoWordsIsWhite(text: string)
    requires Words(text) == []
    ensures AllWhite(text)
  {
    if text != [] {
      NoWordsIsWhite(text[1..]);
      assert text == [text[0]] + text[1..];
    }
  }

  /** The first `i` parts are tokens up to `index`, and the rest is still to come. */
  ghost predicate Split(text: string, tokens: seq<Token>, index: nat, parts: seq<string>, i: nat) {
    && index == End(0, tokens) <= |text|
    && i <= |parts|
    && Follow(text, 0, tokens)
    && Words(text[index..]) == parts[i..]
    && Values(tokens) == parts[..i]
  }

  lemma SplitsNext(text: string, tokens: seq<Token>, index: nat, parts: seq<string>, i: nat)
    returns (t: Token)
    requires Split(text, tokens, index, parts, i) && i < |parts|
    ensures IsNext(text, index, t) && t.value == parts[i]
    ensures Split(text, tokens + [t], t.end, parts, i + 1)
  {
    assert parts[i..] == [parts[i]] + parts[i + 1..];
    t := FirstWord(text, index, parts[i], parts[i + 1..]);
    FollowGrows(text, 0, tokens, t);
    assert Values(tokens + [t]) == Values(tokens) + [t.value];
    assert parts[..i] + [parts[i]] == parts[..i + 1];
  }

  method Tokenize(text: string) returns (tokens: seq<Token>)
    ensures Exact(text, 0, tokens)
    ensures Values(tokens) == Words(text)
  {
    tokens := [];
    var index: nat := 0;
    var parts := Words(text);
    assert text[0..] == text;
    for i := 0 to |parts|
      invariant Split(text, tokens, index, parts, i)
    {
      var part := parts[i];
      ghost var next := SplitsNext(text, tokens, index, parts, i);
      var start := IndexOf(text, part, index);
      FoundIsNext(text, index, next, start);
      var end := start + |part|;
      index := end;
      tokens := tokens + [Token(part, start, end)];
    }
    NoWordsIsWhite(text[index..]);
  }

  /** A text has one exact tokenization only. */
  lemma {:induction false} ExactIsUnique(text: string, from: nat, a: seq<Token>, b: seq<Token>)
    requires Exact(text, from, a) && Exact(text, from, b)
    ensures a == b
    decreases |a|
  {
    if a == [] || b == [] {
      EmptyIsExactOnce(text, from, a);
      EmptyIsExactOnce(text, from, b);
    } else {
      NextIsUnique(text, from, a[0], b[0]);
      ExactIsUnique(text, a[0].end, a[1..], b[1..]);
    }
  }

  lemma EmptyIsExactOnce(text: string, from: nat, a: seq<Token>)
    requires from <= |text| && AllWhite(text[from..]) && Follow(text, from, a)
    ensures a == []
  {
    if a != [] {
      NextIsNotWhite(text, from, a[0]);
    }
  }

  lemma NextIsNotWhite(text: string, from: nat, t: Token)
    requires IsNext(text, from, t)
    ensures !AllWhite(text[from..])
  {
    assert t.value[0] in t.value;
    assert text[from..][t.start - from] == t.value[0];
  }

  lemma NextIsUnique(text: string, from: nat, a: Token, b: Token)
    requires IsNext(text, from, a) && IsNext(text, from, b)
    ensures a == b
  {
    StartsNotLater(text, from, a, b);
    StartsNotLater(text, from, b, a);
    EndsNotLater(text, a, b);
    EndsNotLater(text, b, a);
  }

  lemma StartsNotLater(text: string, from: nat, a: Token, b: Token)
    requires from <= a.start <= |text| && AllWhite(text[from..a.start])
    requires from <= b.start < b.end <= |text| && b.value == text[b.start..b.end] && NoWhite(b.value)
    ensures a.start <= b.start
  {
    RangeIsWhite(text, from, a.start);
    RangeIsNotWhite(text, b.start, b.end);
    assert !IsWhiteSpace(text[b.start]);
  }

  lemma EndsNotLater(text: string, a: Token, b: Token)
    requires a.start == b.start < a.end <= |text| && b.start < b.end <= |text|
    requires a.end < |text| ==> IsWhiteSpace(text[a.end])
    requires b.value == text[b.start..b.end] && NoWhite(b.value)
    ensures b.end <= a.end
  {
    RangeIsNotWhite(text, b.start, b.end);
  }

  // ----- words of composed texts -----

  lemma {:induction false} WordLengthConcat(a: string, b: string)
    requires WordLength(a) < |a| || b == [] || IsWhiteSpace(b[0])
    ensures WordLength(a + b) == WordLength(a)
  {
    if a != [] && !IsWhiteSpace(a[0]) {
      WordLengthConcat(a[1..], b);
      assert (a + b)[1..] == a[1..] + b;
    } else if a == [] {
      assert a + b == b;
    }
  }

  ghost predicate Separate(a: string, b: string) {
    a == [] || b == [] || IsWhiteSpace(a[|a| - 1]) || IsWhiteSpace(b[0])
  }

  /** Where two texts meet at white space, their words add up. */
  lemma {:induction false} WordsConcat(a: string, b: string)
    requires Separate(a, b)
    ensures Words(a + b) == Words(a) + Words(b)
    decreases |a|
  {
    if a == [] {
      assert a + b == b;
    } else if IsWhiteSpace(a[0]) {
      assert (a + b)[1..] == a[1..] + b;
      WordsConcat(a[1..], b);
    } else {
      var n := WordLength(a);
      WordsUnfold(a);
      WordsUnfold(a + b);
      FirstWordOfConcat(a, b);
      WordsConcat(a[n..], b);
    }
  }

  lemma FirstWordOfConcat(a: string, b: string)
    requires Separate(a, b) && a != [] && !IsWhiteSpace(a[0])
    ensures
      var n := WordLength(a);
      WordLength(a + b) == n && (a + b)[..n] == a[..n] && (a + b)[n..] == a[n..] + b
  {
    var n := WordLength(a);
    if n == |a| {
      assert a[|a| - 1] in a[..n];
    }
    WordLengthConcat(a, b);
  }

  lemma {:induction false} WhiteHasNoWords(s: string)
    requires AllWhite(s)
    ensures Words(s) == []
  {
    WordsSkip(s, |s|);
  }

  lemma OneWord(w: string)
    requires w != [] && NoWhite(w)
    ensures Words(w) == [w]
  {
    assert w[0..|w|] == w && w[..|w|] == w;
    RangeIsNotWhite(w, 0, |w|);
    assert w[0] in w;
  }

  // ----- decoding -----

  /** `Join` with single blanks. */
  function Join(words: seq<string>): string {
    if words == [] then ""
    else if |words| == 1 then words[0]
    else words[0] + " " + Join(words[1..])
  }

  function Decode(tokens: seq<Token>): string {
    Join(Values(tokens))
  }

  ghost predicate AreWords(words: seq<string>) {
    forall w | w in words :: w != [] && NoWhite(w)
  }

  lemma {:induction false} WordsAreWords(text: string)
    ensures AreWords(Words(text))
  {
    if text != [] {
      if IsWhiteSpace(text[0]) {
        WordsAreWords(text[1..]);
      } else {
        WordsAreWords(text[WordLength(text)..]);
      }
    }
  }

  lemma {:induction false} JoinedWords(words: seq<string>)
    requires AreWords(words)
    ensures Words(Join(words)) == words
  {
    if |words| == 1 {
      assert words[0] in words;
      OneWord(words[0]);
    } else if words != [] {
      assert words[0] in words;
      OneWord(words[0]);
      JoinedWords(words[1..]);
      WordThenText(words[0], Join(words[1..]));
    }
  }

  lemma WordThenText(word: string, text: string)
    ensures Words(word + " " + text) == Words(word) + Words(text)
  {
    WhiteHasNoWords(" ");
    WordsConcat(word, " ");
    WordsConcat(word + " ", text);
  }

  /** Decoding the tokens of a text and tokenizing again gives the same words, and the same decoded text. */
  lemma DecodeRoundTrip(text: string, tokens: seq<Token>, again: seq<Token>)
    requires Values(tokens) == Words(text) && Values(again) == Words(Decode(tokens))
    ensures Values(again) == Values(tokens)
    ensures Decode(again) == Decode(tokens)
  {
    WordsAreWords(text);
    JoinedWords(Words(text));
  }

  // ----- what exactness says of the positions -----

  /** The words of a text are the values of any exact tokenization of it. */
  lemma {:induction false} ExactGivesWords(text: string, from: nat, tokens: seq<Token>)
    requires Exact(text, from, tokens)
    ensures Words(text[from..]) == Values(tokens)
    decreases |tokens|
  {
    if tokens == [] {
      WhiteHasNoWords(text[from..]);
    } else {
      var rest := Values(tokens[1..]);
      ExactGivesWords(text, tokens[0].end, tokens[1..]);
      WordsAtNext(text, from, tokens[0]);
      assert Values(tokens) == [tokens[0].value] + rest;
    }
  }

  lemma WordsAtNext(text: string, from: nat, t: Token)
    requires IsNext(text, from, t)
    ensures Words(text[from..]) == [t.value] + Words(text[t.end..])
  {
    var gap, rest := text[from..t.start], text[t.end..];
    assert text[from..] == gap + (t.value + rest);
    WhiteHasNoWords(gap);
    OneWord(t.value);
    WordsConcat(t.value, rest);
    WordsConcat(gap, t.value + rest);
  }

  /** Spans are ordered and disjoint, name the token's text, and leave out nothing but white space. */
  lemma SpansAreExact(text: string, from: nat, tokens: seq<Token>)
    requires from <= |text| && Exact(text, from, tokens)
    ensures forall t | t in tokens ::
      from <= t.start < t.end <= |text| && text[t.start..t.end] == t.value
    ensures forall i, j | 0 <= i < j < |tokens| :: tokens[i].end < tokens[j].start
    ensures forall p | from <= p < |text| ::
      IsWhiteSpace(text[p]) <==> forall t | t in tokens :: !(t.start <= p < t.end)
  {
    SpansAreOrdered(text, from, tokens);
    SpansLeaveWhite(text, from, tokens);
  }

  lemma {:induction false} SpansAreOrdered(text: string, from: nat, tokens: seq<Token>)
    requires from <= |text| && Exact(text, from, tokens)
    ensures forall t | t in tokens ::
      from <= t.start < t.end <= |text| && text[t.start..t.end] == t.value
    ensures forall i, j | 0 <= i < j < |tokens| :: tokens[i].end < tokens[j].start
    decreases |tokens|
  {
    if tokens != [] {
      SpansAreOrdered(text, tokens[0].end, tokens[1..]);
      if |tokens| > 1 {
        GapBefore(text, tokens[0], tokens[1]);
      }
    }
  }

  lemma {:induction false} SpansLeaveWhite(text: string, from: nat, tokens: seq<Token>)
    requires from <= |text| && Exact(text, from, tokens)
    ensures forall p | from <= p < |text| ::
      IsWhiteSpace(text[p]) <==> forall t | t in tokens :: !(t.start <= p < t.end)
    decreases |tokens|
  {
    if tokens == [] {
      RangeIsWhite(text, from, |text|);
    } else {
      SpansAreOrdered(text, tokens[0].end, tokens[1..]);
      SpansLeaveWhite(text, tokens[0].end, tokens[1..]);
      forall p | from <= p < |text|
        ensures IsWhiteSpace(text[p]) <==> forall u | u in tokens :: !(u.start <= p < u.end)
      {
        OutsideOrInside(text, from, tokens[0], p);
      }
    }
  }

  lemma GapBefore(text: string, t: Token, next: Token)
    requires t.end <= |text| && (t.end < |text| ==> IsWhiteSpace(text[t.end])) && IsNext(text, t.end, next)
    ensures t.end < next.start
  {
    assert next.value[0] in next.value;
  }

  lemma OutsideOrInside(text: string, from: nat, t: Token, p: nat)
    requires IsNext(text, from, t) && from <= p < |text|
    ensures p < t.start ==> IsWhiteSpace(text[p])
    ensures t.start <= p < t.end ==> !IsWhiteSpace(text[p])
  {
    if p < t.start {
      assert text[p] in text[from..t.start];
    } else if p < t.end {
      assert t.value[p - t.start] in t.value;
    }
  }

  // ----- what decoding writes -----

  /** From `from` on, the tokens stand one blank apart, and nothing else stands before or after them. */
  ghost predicate SingleBlanks(text: string, from: nat, tokens: seq<Token>)
    decreases |tokens|
  {
    tokens != [] ==>
      && tokens[0].start == from
      && if |tokens| == 1 then tokens[0].end == |text|
         else tokens[0].end < |text| && text[tokens[0].end] == ' '
              && SingleBlanks(text, tokens[0].end + 1, tokens[1..])
  }

  /** Decoding writes the words one blank apart. */
  lemma DecodeIsTight(text: string, tokens: seq<Token>, again: seq<Token>)
    requires Values(tokens) == Words(text) && Exact(Decode(tokens), 0, again)
    ensures SingleBlanks(Decode(tokens), 0, again)
  {
    WordsAreWords(text);
    assert Decode(tokens)[0..] == Decode(tokens);
    JoinedIsTight(Decode(tokens), 0, Words(text), again);
  }

  lemma {:induction false} JoinedIsTight(text: string, from: nat, words: seq<string>, tokens: seq<Token>)
    requires from <= |text| && AreWords(words) && text[from..] == Join(words) && Exact(text, from, tokens)
    ensures SingleBlanks(text, from, tokens)
    decreases |tokens|
  {
    ExactGivesWords(text, from, tokens);
    JoinedWords(words);
    if tokens != [] {
      assert tokens[0].value == Values(tokens)[0] == words[0];
      FirstIsTight(text, from, words, tokens[0]);
      if |tokens| > 1 {
        var end := tokens[0].end;
        BlankIsSkipped(text, end, tokens[1..]);
        JoinedIsTight(text, end + 1, words[1..], tokens[1..]);
      }
    }
  }

  lemma FirstIsTight(text: string, from: nat, words: seq<string>, t: Token)
    requires from <= |text| && AreWords(words) && words != [] && text[from..] == Join(words)
    requires IsNext(text, from, t) && t.value == words[0]
    ensures t.start == from
    ensures |words| == 1 ==> t.end == |text|
    ensures |words| > 1 ==>
      t.end < |text| && text[t.end] == ' ' && text[t.end + 1..] == Join(words[1..]) && AreWords(words[1..])
  {
    assert words[0] in words && words[0][0] in words[0];
    assert text[from..][0] == words[0][0];
    StartsAtOnce(text, from, t);
    if |words| > 1 {
      assert text[from..][|words[0]|] == ' ';
      assert text[t.end + 1..] == text[from..][|words[0]| + 1..];
    }
  }

  lemma StartsAtOnce(text: string, from: nat, t: Token)
    requires IsNext(text, from, t) && !IsWhiteSpace(text[from])
    ensures t.start == from
  {
    RangeIsWhite(text, from, t.start);
  }

  lemma BlankIsSkipped(text: string, from: nat, tokens: seq<Token>)
    requires Exact(text, from, tokens) && tokens != [] && IsWhiteSpace(text[from])
    ensures Exact(text, from + 1, tokens)
  {
    var t := tokens[0];
    assert t.value[0] in t.value;
    assert forall c | c in text[from + 1..t.start] :: c in text[from..t.start];
  }

  // ----- trimming -----

  lemma {:induction false} TrimStartKeepsWords(s: string)
    ensures Words(TrimStart(s)) == Words(s)
  {
    if s != [] && IsWhiteSpace(s[0]) {
      TrimStartKeepsWords(s[1..]);
    }
  }

  lemma {:induction false} TrimEndKeepsWords(s: string)
    ensures Words(TrimEnd(s)) == Words(s)
  {
    if s != [] && IsWhiteSpace(s[|s| - 1]) {
      var front, last := s[..|s| - 1], [s[|s| - 1]];
      TrimEndKeepsWords(front);
      WhiteHasNoWords(last);
      WordsConcat(front, last);
      assert s == front + last;
    }
  }

  lemma TrimKeepsWords(s: string)
    ensures Words(Trim(s)) == Words(s)
  {
    TrimStartKeepsWords(s);
    TrimEndKeepsWords(TrimStart(s));
  }
}
