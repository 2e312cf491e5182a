/**
  What a generated prompt is made of: which role says what, how each block is laid out, and what is wrong
  with a capability that is refused.
*/
module PromptAnswers {
  import opened Common
  import opened PromptGenerator
  import Ordering
  import Tokenizer
  import VfsPaths

  // ----- messages -----

  /** The role of the first of two messages. */
  function SystemRole(c: Capability): string {
    if c.supportsSystem then "system" else c.systemInstructionRole
  }

  /**
    A chat says the system text in the role of the system, then the trimmed instruction as the user; every
    other format says both as the user. Roles and contents are all counted.
  */
  lemma RolesSay(count: Counter, rq: Request, blocks: seq<Block>)
    requires !rq.capability.format.OtherFormat?
    ensures
      var messages := Messages(rq, blocks).value;
      var system, instruction := SystemInstruction(rq, blocks), Trim(rq.instruction);
      if rq.capability.format.ChatMessages? then
        && messages == [Message(SystemRole(rq.capability), system), Message("user", instruction)]
        && TokensOf(count, rq, blocks)
           == count(SystemRole(rq.capability)) + count(system) + count("user") + count(instruction)
      else
        && messages == [Message("user", system + "\n\nUser instruction:\n" + instruction)]
        && TokensOf(count, rq, blocks) == count("user") + count(messages[0].content)
  {
    var messages := Messages(rq, blocks).value;
    TotalUnfolds(count, messages);
    if |messages| > 1 {
      TotalUnfolds(count, messages[1..]);
    }
  }

  lemma TotalUnfolds(count: Counter, messages: seq<Message>)
    requires messages != []
    ensures Total(count, messages) == count(messages[0].role) + count(messages[0].content) + Total(count, messages[1..])
    ensures |messages| == 1 ==> Total(count, messages[1..]) == 0
  {
  }

  // ----- layout -----

  const RULES := "You are executing inside AIKernel.NET."
  const SCOPE := "Use only the supplied ContextSnapshot."
  const CAUTION := "Do not infer hidden context."
  const HEADING := "Context:"

  /** The words before the blocks: the fixed sentences, the snapshot and its hash if asked for, the heading. */
  function OpeningWords(rq: Request): seq<string> {
    Tokenizer.Words(RULES) + Tokenizer.Words(SCOPE) + Tokenizer.Words(CAUTION)
    + (if rq.includeContextHash then
         Tokenizer.Words("ContextSnapshotId: " + rq.snapshotId) + Tokenizer.Words("ContextHash: " + rq.contextHash)
       else [])
    + Tokenizer.Words(HEADING)
  }

  lemma PreambleSays(rq: Request)
    ensures Tokenizer.Words(Preamble(rq)) == OpeningWords(rq)
  {
    OpeningSays(RULES, SCOPE, CAUTION, "ContextSnapshotId: " + rq.snapshotId, "ContextHash: " + rq.contextHash,
                rq.includeContextHash, HEADING);
  }

  lemma OpeningSays(a: string, b: string, c: string, id: string, hash: string, named: bool, heading: string)
    ensures
      var names := if named then Line(id) + Line(hash) + Line("") else "";
      Tokenizer.Words(Line(a) + Line(b) + Line(c) + Line("") + names + Line(heading))
      == Tokenizer.Words(a) + Tokenizer.Words(b) + Tokenizer.Words(c)
       + (if named then Tokenizer.Words(id) + Tokenizer.Words(hash) else []) + Tokenizer.Words(heading)
  {
    ThreeLinesSay(id, hash, "");
    BlankSaysNothing();
    LinesSay(a, b, c, if named then Line(id) + Line(hash) + Line("") else "", heading);
  }

  lemma LinesSay(a: string, b: string, c: string, more: string, heading: string)
    requires more == "" || EndsWhite(more)
    ensures Tokenizer.Words(Line(a) + Line(b) + Line(c) + Line("") + more + Line(heading))
         == Tokenizer.Words(a) + Tokenizer.Words(b) + Tokenizer.Words(c) + Tokenizer.Words(more)
          + Tokenizer.Words(heading)
  {
    ThreeLinesSay(a, b, c);
    BlankLineAdds(Line(a) + Line(b) + Line(c));
    TextAdds(Line(a) + Line(b) + Line(c) + Line(""), more);
    LineGrows(Line(a) + Line(b) + Line(c) + Line("") + more, heading);
  }

  lemma TextAdds(text: string, more: string)
    requires EndsWhite(text) && (more == "" || EndsWhite(more))
    ensures Tokenizer.Words(text + more) == Tokenizer.Words(text) + Tokenizer.Words(more)
    ensures EndsWhite(text + more)
  {
    Tokenizer.WordsConcat(text, more);
    assert more == "" ==> text + more == text;
  }

  lemma BlankLineAdds(text: string)
    requires EndsWhite(text)
    ensures Tokenizer.Words(text + Line("")) == Tokenizer.Words(text) && EndsWhite(text + Line(""))
  {
    LineGrows(text, "");
    BlankSaysNothing();
  }

  lemma BlankSaysNothing()
    ensures Tokenizer.Words("") == []
  {
  }

  lemma LineGrows(text: string, line: string)
    requires EndsWhite(text)
    ensures Tokenizer.Words(text + Line(line)) == Tokenizer.Words(text) + Tokenizer.Words(line)
    ensures EndsWhite(text + Line(line))
  {
    LineSays(line);
    Tokenizer.WordsConcat(text, Line(line));
  }

  lemma LineSays(line: string)
    ensures Tokenizer.Words(Line(line)) == Tokenizer.Words(line) && EndsWhite(Line(line))
  {
    LineAdds(line, "");
    BlankSaysNothing();
    assert Line(line) + "" == Line(line);
  }

  lemma ThreeLinesSay(a: string, b: string, c: string)
    ensures Tokenizer.Words(Line(a) + Line(b) + Line(c))
         == Tokenizer.Words(a) + Tokenizer.Words(b) + Tokenizer.Words(c)
    ensures EndsWhite(Line(a) + Line(b) + Line(c))
  {
    LineSays(a);
    LineGrows(Line(a), b);
    LineGrows(Line(a) + Line(b), c);
  }

  /** The lines of a block as they stand in the system text. */
  function Lines(block: Block): string {
    "\n--- block: " + block.id + " category: " + block.category + " ---"
    + (if Trim(block.content) == "" then "" else "\n" + Trim(block.content))
  }

  ghost predicate Contains(text: string, part: string) {
    exists i :: 0 <= i && Tokenizer.OccursAt(text, part, i)
  }

  /** Each block stands in the system text between line breaks, its header first and its content below. */
  lemma BlocksAreLaidOut(rq: Request, blocks: seq<Block>, block: Block)
    requires block in blocks
    ensures Contains(SystemInstruction(rq, blocks), Lines(block))
  {
    OpeningIsText(rq);
    BlockOrder();
    Ordering.SortSorts(blocks, BlockLe);
    var ordered := Ordering.Sort(blocks, BlockLe);
    assert block in multiset(ordered);
    var k :| 0 <= k < |ordered| && ordered[k] == block;
    var before, after := AroundBlock(Preamble(rq), ordered, k);
    LinesEnd(block);
    TrimKeeps(before, Lines(block), after, Body(Preamble(rq), ordered));
  }

  lemma OpeningIsText(rq: Request)
    ensures EndsLine(Preamble(rq)) && !IsWhiteSpace(Preamble(rq)[0])
  {
    var text := Preamble(rq);
    assert text[0] == RULES[0] == 'Y';
    assert text[|text| - 1] == Line(HEADING)[|HEADING|] == NEWLINE[0];
  }

  /** Before a block there is a line break, after its lines there is white space or the next block. */
  lemma {:induction false} AroundBlock(preamble: string, ordered: seq<Block>, k: nat)
    returns (before: string, after: string)
    requires k < |ordered| && EndsLine(preamble)
    ensures Body(preamble, ordered) == before + Lines(ordered[k]) + after
    decreases k
  {
    var text, more := BlockText(ordered[0]), BlocksText(ordered[1..]);
    assert Texts(ordered)[1..] == Texts(ordered[1..]);
    assert Body(preamble, ordered) == preamble + (text + more);
    BodyUnfolds(preamble, text, more);
    if k == 0 {
      before := preamble[..|preamble| - 1];
      var rest := LinesBegin(ordered[0]);
      after := rest + more;
      Regroup(preamble, before, Lines(ordered[0]), rest, text, more);
    } else {
      BlockEndsLine(ordered[0]);
      before, after := AroundBlock(preamble + text, ordered[1..], k - 1);
      assert Body(preamble + text, ordered[1..]) == (preamble + text) + more;
      assert ordered[1..][k - 1] == ordered[k];
    }
  }

  lemma BodyUnfolds(preamble: string, text: string, more: string)
    ensures preamble + (text + more) == (preamble + text) + more
  {
  }

  lemma Regroup(preamble: string, before: string, lines: string, rest: string, text: string, more: string)
    requires preamble == before + NEWLINE && NEWLINE + text == lines + rest
    ensures preamble + (text + more) == before + lines + (rest + more)
  {
    assert preamble + (text + more) == before + (NEWLINE + text) + more;
    assert before + lines + (rest + more) == before + (lines + rest) + more;
  }

  lemma BlockEndsLine(block: Block)
    ensures EndsLine(BlockText(block))
  {
  }

  lemma LinesBegin(block: Block) returns (rest: string)
    ensures NEWLINE + BlockText(block) == Lines(block) + rest
  {
    var content := Trim(block.content);
    HeaderStands(block);
    rest := if content == "" then Line("") + Line("") + Line("") else Line("") + Line("");
    LinesStand(Header(block), content);
  }

  lemma HeaderStands(block: Block)
    ensures "\n--- block: " + block.id + " category: " + block.category + " ---" == NEWLINE + Header(block)
  {
    var a, b := "--- block: ", " category: ";
    assert "\n--- block: " == NEWLINE + a;
    Associate(NEWLINE, a, block.id, b, block.category, " ---");
  }

  lemma Associate(n: string, a: string, id: string, b: string, category: string, end: string)
    ensures n + a + id + b + category + end == n + (a + id + b + category + end)
  {
  }

  lemma LinesStand(header: string, content: string)
    ensures NEWLINE + (Line(header) + Line(content) + Line(""))
         == if content == "" then NEWLINE + header + (Line("") + Line("") + Line(""))
            else NEWLINE + header + (NEWLINE + content) + (Line("") + Line(""))
  {
  }

  /** The lines of a block end in a character that is not white. */
  lemma LinesEnd(block: Block)
    ensures |Lines(block)| > 0 && !IsWhiteSpace(Lines(block)[|Lines(block)| - 1])
  {
    VfsPaths.TrimTrims(block.content);
  }

  lemma TrimKeeps(before: string, part: string, after: string, text: string)
    requires text == before + part + after && text != [] && !IsWhiteSpace(text[0])
    requires part != [] && !IsWhiteSpace(part[|part| - 1])
    ensures Contains(Trim(text), part)
  {
    TrimEndKeeps(before + part, after);
    var kept := TrimEnd(text);
    assert kept[..|before + part|] == before + part;
    assert kept[|before|..|before| + |part|] == part;
    assert Tokenizer.OccursAt(kept, part, |before|);
  }

  lemma {:induction false} TrimEndKeeps(kept: string, after: string)
    requires kept != [] && !IsWhiteSpace(kept[|kept| - 1])
    ensures kept <= TrimEnd(kept + after)
    decreases |after|
  {
    if after != [] && IsWhiteSpace(after[|after| - 1]) {
      TrimEndKeeps(kept, after[..|after| - 1]);
      assert (kept + after)[..|kept + after| - 1] == kept + after[..|after| - 1];
    } else if after == [] {
      assert kept + after == kept;
    }
  }

  ghost predicate EndsLine(text: string) {
    text != [] && text[|text| - 1] == '\n'
  }

  // ----- capabilities -----

  /** What each failure says of the capability. */
  ghost predicate Concerns(c: Capability, failure: Failure) {
    match failure
    case ProviderIdRequired => IsBlank(c.providerId)
    case ModelIdRequired => IsBlank(c.modelId)
    case MaxInputTokensNotPositive => c.maxInputTokens <= 0
    case MaxOutputTokensNotPositive => c.maxOutputTokens <= 0
    case NoRoles => |c.roles| == 0
    case UserRoleRequired => forall role | role in c.roles :: role != "user"
    case UnsupportedFormat =>
      c.format != ChatMessages && c.format != AlternatingMessages && c.format != SingleTextPrompt
    case BudgetExceeded(_, _) => false
  }

  function Rank(failure: Failure): nat {
    match failure
    case ProviderIdRequired => 0
    case ModelIdRequired => 1
    case MaxInputTokensNotPositive => 2
    case MaxOutputTokensNotPositive => 3
    case NoRoles => 4
    case UserRoleRequired => 5
    case UnsupportedFormat => 6
    case BudgetExceeded(_, _) => 7
  }

  /** A capability is refused if and only if something is wrong with it, and for the first such thing. */
  lemma RefusalIsFirst(c: Capability, failure: Failure)
    ensures CapabilityFailure(c) == Some(failure) <==>
      Concerns(c, failure) && forall other | Concerns(c, other) :: Rank(failure) <= Rank(other)
  {
    var found := CapabilityFailure(c);
    if found.Some? {
      assert Concerns(c, found.value);
    }
  }
}
