/**
  The prompt generator: it lays out context blocks by priority and drops the last ones until the prompt
  fits the token budget.
*/
module PromptGenerator {
  import opened Common
  import opened Ordering
  import Tokenizer

  datatype Block = Block(id: string, category: string, priority: int, content: string,
                         metadata: map<string, string>)

  datatype Format = ChatMessages | AlternatingMessages | SingleTextPrompt | OtherFormat

  datatype OverflowPolicy = FailClosed | OtherPolicy

  datatype Capability = Capability(
    providerId: string,
    modelId: string,
    maxInputTokens: int,
    maxOutputTokens: int,
    roles: seq<string>,
    format: Format,
    supportsSystem: bool,
    systemInstructionRole: string)

  datatype Request = Request(
    snapshotId: string,
    contextHash: string,
    instruction: string,
    blocks: seq<Block>,
    capability: Capability,
    includeContextHash: bool,
    includeSourceMetadata: bool,
    overflow: OverflowPolicy)

  datatype Message = Message(role: string, content: string)

  datatype Failure =
    | ProviderIdRequired
    | ModelIdRequired
    | MaxInputTokensNotPositive
    | MaxOutputTokensNotPositive
    | NoRoles
    | UserRoleRequired
    | UnsupportedFormat
    | BudgetExceeded(tokens: int, limit: int)

  datatype Outcome = Generated(messages: seq<Message>, tokens: int) | Failed(failure: Failure)

  type Counter = string -> int

  // ----- layout -----

  const NEWLINE := "\n"

  function Line(text: string): string {
    text + NEWLINE
  }

  predicate BlockLe(a: Block, b: Block) {
    if a.priority == b.priority then StringLe(a.id, b.id) else a.priority > b.priority
  }

  function Preamble(rq: Request): string {
    Line("You are executing inside AIKernel.NET.")
    + Line("Use only the supplied ContextSnapshot.")
    + Line("Do not infer hidden context.")
    + Line("")
    + (if rq.includeContextHash then
         Line("ContextSnapshotId: " + rq.snapshotId) + Line("ContextHash: " + rq.contextHash) + Line("")
       else "")
    + Line("Context:")
  }

  function Header(block: Block): string {
    "--- block: " + block.id + " category: " + block.category + " ---"
  }

  function BlockText(block: Block): string {
    Line(Header(block)) + Line(Trim(block.content)) + Line("")
  }

  function BlocksText(blocks: seq<Block>): string {
    Concat(Texts(blocks))
  }

  function Texts(blocks: seq<Block>): seq<string> {
    seq(|blocks|, i requires 0 <= i < |blocks| => BlockText(blocks[i]))
  }

  function Concat(texts: seq<string>): string {
    if texts == [] then "" else texts[0] + Concat(texts[1..])
  }

  function SystemInstruction(rq: Request, blocks: seq<Block>): string {
    Trim(Body(Preamble(rq), Sort(blocks, BlockLe)))
  }

  /** The text of blocks that are in order already. */
  function Body(preamble: string, ordered: seq<Block>): string {
    preamble + BlocksText(ordered)
  }

  function ChatPrompt(rq: Request, system: string): seq<Message> {
    [ Message(if rq.capability.supportsSystem then "system" else rq.capability.systemInstructionRole, system),
      Message("user", Trim(rq.instruction)) ]
  }

  function SinglePrompt(rq: Request, system: string): seq<Message> {
    [ Message("user", system + INTRO + Trim(rq.instruction)) ]
  }

  const INTRO := "\n\nUser instruction:\n"

  /** The messages around the system instruction; none for a format that is not supported. */
  function Prompt(rq: Request, system: string): Option<seq<Message>> {
    match rq.capability.format
    case ChatMessages => Some(ChatPrompt(rq, system))
    case AlternatingMessages => Some(SinglePrompt(rq, system))
    case SingleTextPrompt => Some(SinglePrompt(rq, system))
    case OtherFormat => None
  }

  function Messages(rq: Request, blocks: seq<Block>): Option<seq<Message>> {
    Prompt(rq, SystemInstruction(rq, blocks))
  }

  function Total(count: Counter, messages: seq<Message>): int {
    if messages == [] then 0
    else count(messages[0].role) + count(messages[0].content) + Total(count, messages[1..])
  }

  lemma {:induction false} ConcatGrows(texts: seq<string>, text: string)
    ensures Concat(texts + [text]) == Concat(texts) + text
  {
    if texts == [] {
      assert texts + [text] == [text];
    } else {
      ConcatGrows(texts[1..], text);
      assert (texts + [text])[1..] == texts[1..] + [text];
    }
  }

  lemma BlocksTextGrows(blocks: seq<Block>, block: Block)
    ensures BlocksText(blocks + [block]) == BlocksText(blocks) + BlockText(block)
  {
    ConcatGrows(Texts(blocks), BlockText(block));
    assert Texts(blocks + [block]) == Texts(blocks) + [BlockText(block)];
  }

  lemma {:induction false} TotalGrows(count: Counter, messages: seq<Message>, m: Message)
    ensures Total(count, messages + [m]) == Total(count, messages) + count(m.role) + count(m.content)
  {
    if messages == [] {
      assert messages + [m] == [m];
    } else {
      TotalGrows(count, messages[1..], m);
      assert (messages + [m])[1..] == messages[1..] + [m];
    }
  }

  method BuildSystemInstruction(rq: Request, blocks: seq<Block>) returns (text: string)
    ensures text == SystemInstruction(rq, blocks)
  {
    var preamble := Preamble(rq);
    var builder := preamble;
    var ordered := Sort(blocks, BlockLe);
    for i := 0 to |ordered|
      invariant builder == Body(preamble, ordered[..i])
    {
      BodyGrows(preamble, ordered[..i], ordered[i]);
      assert ordered[..i] + [ordered[i]] == ordered[..i + 1];
      builder := builder + BlockText(ordered[i]);
    }
    assert ordered[..|ordered|] == ordered;
    text := Trim(builder);
  }

  lemma ConcatAssociates(a: string, b: string, c: string)
    ensures a + (b + c) == (a + b) + c
  {
  }

  lemma BodyGrows(preamble: string, blocks: seq<Block>, block: Block)
    ensures Body(preamble, blocks + [block]) == Body(preamble, blocks) + BlockText(block)
  {
    BlocksTextGrows(blocks, block);
    ConcatAssociates(preamble, BlocksText(blocks), BlockText(block));
  }

  method BuildMessages(rq: Request, blocks: seq<Block>) returns (messages: Option<seq<Message>>)
    ensures messages == Messages(rq, blocks)
  {
    var system := BuildSystemInstruction(rq, blocks);
    messages := Prompt(rq, system);
  }

  method CountMessages(count: Counter, messages: seq<Message>) returns (total: int)
    ensures total == Total(count, messages)
  {
    total := 0;
    for i := 0 to |messages|
      invariant total == Total(count, messages[..i])
    {
      TotalGrows(count, messages[..i], messages[i]);
      assert messages[..i] + [messages[i]] == messages[..i + 1];
      total := total + count(messages[i].role);
      total := total + count(messages[i].content);
    }
    assert messages[..|messages|] == messages;
  }

  // ----- trimming -----

  /** The blocks that are left when only the first `k` by priority are kept. */
  function Kept(blocks: seq<Block>, k: nat): (kept: seq<Block>)
    requires k <= |blocks|
    ensures |kept| == k
  {
    SortKeepsLength(blocks);
    Sort(blocks, BlockLe)[..k]
  }

  lemma SortKeepsLength(blocks: seq<Block>)
    ensures |Sort(blocks, BlockLe)| == |blocks|
  {
    BlockOrder();
    SortSorts(blocks, BlockLe);
    assert |multiset(Sort(blocks, BlockLe))| == |multiset(blocks)|;
  }

  lemma BlockOrder()
    ensures TotalPreorder(BlockLe)
  {
    forall a: Block, b: Block
      ensures BlockLe(a, b) || BlockLe(b, a)
    {
      StringsCompare(a.id, b.id);
    }
    forall a: Block, b: Block, c: Block
      ensures BlockLe(a, b) && BlockLe(b, c) ==> BlockLe(a, c)
    {
      StringsChain(a.id, b.id, c.id);
    }
  }

  /** The blocks that are dropped when the first `k` by priority are kept. */
  function Dropped(blocks: seq<Block>, k: nat): (dropped: seq<Block>)
    requires k <= |blocks|
    ensures |dropped| == |blocks| - k
  {
    SortKeepsLength(blocks);
    Sort(blocks, BlockLe)[k..]
  }

  ghost predicate Outrank(kept: seq<Block>, dropped: seq<Block>) {
    forall a, b | a in kept && b in dropped :: HasPriority(a, b)
  }

  ghost predicate HasPriority(a: Block, b: Block) {
    a.priority > b.priority || (a.priority == b.priority && StringLe(a.id, b.id))
  }

  /** What is kept has priority over what is dropped. */
  lemma KeptHavePriority(blocks: seq<Block>, k: nat)
    requires k <= |blocks|
    ensures Outrank(Kept(blocks, k), Dropped(blocks, k))
  {
    BlockOrder();
    SortKeepsLength(blocks);
    SortSorts(blocks, BlockLe);
    SortedHavePriority(Sort(blocks, BlockLe), k);
  }

  /** Nothing is lost and nothing is added. */
  lemma KeptAndDroppedAreAll(blocks: seq<Block>, k: nat)
    requires k <= |blocks|
    ensures multiset(Kept(blocks, k)) + multiset(Dropped(blocks, k)) == multiset(blocks)
  {
    BlockOrder();
    SortKeepsLength(blocks);
    SortSorts(blocks, BlockLe);
    assert Sort(blocks, BlockLe) == Kept(blocks, k) + Dropped(blocks, k);
  }

  lemma SortedHavePriority(sorted: seq<Block>, k: nat)
    requires Sorted(sorted, BlockLe) && k <= |sorted|
    ensures Outrank(sorted[..k], sorted[k..])
  {
    EarlierIsBelow(sorted, k, BlockLe);
    forall a, b | a in sorted[..k] && b in sorted[k..]
      ensures HasPriority(a, b)
    {
      assert BlockLe(a, b);
    }
  }

  function TokensOf(count: Counter, rq: Request, blocks: seq<Block>): int
    requires !rq.capability.format.OtherFormat?
  {
    Total(count, Messages(rq, blocks).value)
  }

  ghost predicate Fits(count: Counter, rq: Request, blocks: seq<Block>, k: nat)
    requires !rq.capability.format.OtherFormat? && k <= |blocks|
  {
    TokensOf(count, rq, Kept(blocks, k)) <= rq.capability.maxInputTokens
  }

  /** The longest prefix of the blocks by priority that fits. */
  ghost predicate LongestFitting(count: Counter, rq: Request, blocks: seq<Block>, k: nat)
    requires !rq.capability.format.OtherFormat?
  {
    k <= |blocks| && Fits(count, rq, blocks, k) && forall j | k < j <= |blocks| :: !Fits(count, rq, blocks, j)
  }

  ghost predicate NothingFits(count: Counter, rq: Request, blocks: seq<Block>)
    requires !rq.capability.format.OtherFormat?
  {
    forall j | 0 <= j <= |blocks| :: !Fits(count, rq, blocks, j)
  }

  datatype Trimmed = Fitting(messages: seq<Message>) | TooLong(failure: Failure)

  /** What trimming has to return: the longest fitting prefix, or a failure when not even the empty one fits. */
  ghost predicate IsTrimmed(count: Counter, rq: Request, blocks: seq<Block>, t: Trimmed)
    requires !rq.capability.format.OtherFormat?
  {
    match t
    case Fitting(messages) =>
      exists k :: LongestFitting(count, rq, blocks, k) && Messages(rq, Kept(blocks, k)) == Some(messages)
    case TooLong(failure) =>
      && NothingFits(count, rq, blocks)
      && failure == BudgetExceeded(TokensOf(count, rq, []), rq.capability.maxInputTokens)
  }

  /** `selected` are the first blocks by priority, and no longer prefix fits. */
  ghost predicate Tried(count: Counter, rq: Request, blocks: seq<Block>, selected: seq<Block>)
    requires !rq.capability.format.OtherFormat?
  {
    && |selected| <= |blocks|
    && selected == Kept(blocks, |selected|)
    && forall j | |selected| < j <= |blocks| :: !Fits(count, rq, blocks, j)
  }

  lemma TryNext(count: Counter, rq: Request, blocks: seq<Block>, selected: seq<Block>)
    requires !rq.capability.format.OtherFormat? && Tried(count, rq, blocks, selected) && selected != []
    requires TokensOf(count, rq, selected) > rq.capability.maxInputTokens
    ensures Tried(count, rq, blocks, selected[..|selected| - 1])
  {
    var k := |selected|;
    KeptShrinks(blocks, k);
    forall j | k - 1 < j <= |blocks|
      ensures !Fits(count, rq, blocks, j)
    {
      if j == k {
        assert Kept(blocks, j) == selected;
      }
    }
  }

  lemma KeptShrinks(blocks: seq<Block>, k: nat)
    requires 0 < k <= |blocks|
    ensures Kept(blocks, k)[..k - 1] == Kept(blocks, k - 1)
  {
    SortKeepsLength(blocks);
  }

  lemma FirstFitIsLongest(count: Counter, rq: Request, blocks: seq<Block>, selected: seq<Block>)
    requires !rq.capability.format.OtherFormat? && Tried(count, rq, blocks, selected)
    requires TokensOf(count, rq, selected) <= rq.capability.maxInputTokens
    ensures IsTrimmed(count, rq, blocks, Fitting(Messages(rq, selected).value))
  {
    var k := |selected|;
    assert LongestFitting(count, rq, blocks, k);
    assert Messages(rq, Kept(blocks, k)) == Some(Messages(rq, selected).value);
  }

  lemma LastTry(count: Counter, rq: Request, blocks: seq<Block>)
    requires !rq.capability.format.OtherFormat? && Tried(count, rq, blocks, [])
    requires TokensOf(count, rq, []) > rq.capability.maxInputTokens
    ensures NothingFits(count, rq, blocks)
  {
    assert Kept(blocks, 0) == [];
  }

  method TrimByPriority(count: Counter, rq: Request, blocks: seq<Block>, limit: int) returns (t: Trimmed)
    requires !rq.capability.format.OtherFormat? && limit == rq.capability.maxInputTokens
    ensures IsTrimmed(count, rq, blocks, t)
  {
    SortKeepsLength(blocks);
    var selected := Sort(blocks, BlockLe);
    assert selected == Kept(blocks, |blocks|);
    while selected != []
      invariant Tried(count, rq, blocks, selected)
    {
      var messages := BuildMessages(rq, selected);
      var total := CountMessages(count, messages.value);
      if total <= limit {
        FirstFitIsLongest(count, rq, blocks, selected);
        return Fitting(messages.value);
      }
      TryNext(count, rq, blocks, selected);
      selected := selected[..|selected| - 1];
    }
    var minimal := BuildMessages(rq, []);
    var total := CountMessages(count, minimal.value);
    if total <= limit {
      FirstFitIsLongest(count, rq, blocks, []);
      return Fitting(minimal.value);
    }
    LastTry(count, rq, blocks);
    return TooLong(BudgetExceeded(total, limit));
  }

  // ----- generating -----

  /** `ValidateCapability`. */
  function CapabilityFailure(c: Capability): Option<Failure> {
    if IsBlank(c.providerId) then Some(ProviderIdRequired)
    else if IsBlank(c.modelId) then Some(ModelIdRequired)
    else if c.maxInputTokens <= 0 then Some(MaxInputTokensNotPositive)
    else if c.maxOutputTokens <= 0 then Some(MaxOutputTokensNotPositive)
    else if c.roles == [] then Some(NoRoles)
    else if "user" !in c.roles then Some(UserRoleRequired)
    else if c.format.OtherFormat? then Some(UnsupportedFormat)
    else None
  }

  function Stripped(block: Block): Block {
    block.(metadata := map[])
  }

  predicate SaysTheSame(a: Block, b: Block) {
    a.id == b.id && a.category == b.category && a.priority == b.priority && a.content == b.content
  }

  function NormalizeBlocks(rq: Request): (blocks: seq<Block>)
    ensures |blocks| == |rq.blocks|
    ensures forall i | 0 <= i < |blocks| :: SaysTheSame(blocks[i], rq.blocks[i])
    ensures forall i | 0 <= i < |blocks| ::
      blocks[i].metadata == if rq.includeSourceMetadata then rq.blocks[i].metadata else map[]
  {
    if rq.includeSourceMetadata then rq.blocks
    else seq(|rq.blocks|, i requires 0 <= i < |rq.blocks| => Stripped(rq.blocks[i]))
  }

  ghost predicate IsOutcome(count: Counter, rq: Request, o: Outcome) {
    match CapabilityFailure(rq.capability)
    case Some(failure) => o == Failed(failure)
    case None =>
      if rq.overflow.FailClosed? then IsWhole(count, rq, NormalizeBlocks(rq), o)
      else IsLongest(count, rq, NormalizeBlocks(rq), o)
  }

  /** All blocks, or a failure. */
  ghost predicate IsWhole(count: Counter, rq: Request, blocks: seq<Block>, o: Outcome)
    requires !rq.capability.format.OtherFormat?
  {
    var tokens, limit := TokensOf(count, rq, blocks), rq.capability.maxInputTokens;
    o == if tokens <= limit then Generated(Messages(rq, blocks).value, tokens)
         else Failed(BudgetExceeded(tokens, limit))
  }

  ghost predicate IsLongest(count: Counter, rq: Request, blocks: seq<Block>, o: Outcome)
    requires !rq.capability.format.OtherFormat?
  {
    match o
    case Generated(messages, tokens) =>
      && tokens == Total(count, messages)
      && exists k :: LongestFitting(count, rq, blocks, k) && Messages(rq, Kept(blocks, k)) == Some(messages)
    case Failed(failure) => IsTrimmed(count, rq, blocks, TooLong(failure))
  }

  lemma KeepingAllIsSorting(count: Counter, rq: Request, blocks: seq<Block>)
    ensures Messages(rq, Kept(blocks, |blocks|)) == Messages(rq, blocks)
  {
    SortKeepsLength(blocks);
    BlockOrder();
    SortSorts(blocks, BlockLe);
    SortOfSorted(Sort(blocks, BlockLe), BlockLe);
    assert Kept(blocks, |blocks|) == Sort(blocks, BlockLe);
  }

  method Generate(count: Counter, rq: Request) returns (o: Outcome)
    ensures IsOutcome(count, rq, o)
    ensures o.Generated? ==> o.tokens == Total(count, o.messages) <= rq.capability.maxInputTokens
  {
    var invalid := CapabilityFailure(rq.capability);
    if invalid.Some? {
      return Failed(invalid.value);
    }
    var limit := rq.capability.maxInputTokens;
    var blocks := NormalizeBlocks(rq);
    var messages := BuildMessages(rq, blocks);
    var tokens := CountMessages(count, messages.value);
    KeepingAllIsSorting(count, rq, blocks);
    if tokens <= limit {
      assert LongestFitting(count, rq, blocks, |blocks|);
      return Generated(messages.value, tokens);
    }
    if rq.overflow.FailClosed? {
      return Failed(BudgetExceeded(tokens, limit));
    }
    var trimmed := TrimByPriority(count, rq, blocks, limit);
    match trimmed
    case TooLong(failure) =>
      return Failed(failure);
    case Fitting(kept) =>
      tokens := CountMessages(count, kept);
      return Generated(kept, tokens);
  }

  /** The request determines the outcome. */
  lemma OutcomeIsUnique(count: Counter, rq: Request, a: Outcome, b: Outcome)
    requires IsOutcome(count, rq, a) && IsOutcome(count, rq, b)
    ensures a == b
  {
    if CapabilityFailure(rq.capability).None? && !rq.overflow.FailClosed? {
      LongestIsUnique(count, rq, NormalizeBlocks(rq), a, b);
    }
  }

  lemma LongestIsUnique(count: Counter, rq: Request, blocks: seq<Block>, a: Outcome, b: Outcome)
    requires !rq.capability.format.OtherFormat?
    requires IsLongest(count, rq, blocks, a) && IsLongest(count, rq, blocks, b)
    ensures a == b
  {
    SomethingOrNothingFits(count, rq, blocks);
    if a.Generated? && b.Generated? {
      var k :| LongestFitting(count, rq, blocks, k) && Messages(rq, Kept(blocks, k)) == Some(a.messages);
      var j :| LongestFitting(count, rq, blocks, j) && Messages(rq, Kept(blocks, j)) == Some(b.messages);
      assert Fits(count, rq, blocks, k) && Fits(count, rq, blocks, j);
    }
  }

  lemma SomethingOrNothingFits(count: Counter, rq: Request, blocks: seq<Block>)
    requires !rq.capability.format.OtherFormat?
    ensures NothingFits(count, rq, blocks) ==> forall k :: !LongestFitting(count, rq, blocks, k)
  {
  }

  // ----- the simple tokenizer -----

  function SimpleCount(text: string): int {
    |Tokenizer.Words(text)|
  }

  /** What one block adds to the prompt. */
  function Cost(block: Block): nat {
    |Tokenizer.Words(Header(block))| + |Tokenizer.Words(block.content)|
  }

  function CostOf(blocks: seq<Block>): nat {
    Sum(Costs(blocks))
  }

  function Costs(blocks: seq<Block>): seq<nat> {
    seq(|blocks|, i requires 0 <= i < |blocks| => Cost(blocks[i]))
  }

  function Sum(costs: seq<nat>): nat {
    if costs == [] then 0 else costs[0] + Sum(costs[1..])
  }

  lemma LineAdds(line: string, text: string)
    ensures Tokenizer.Words(Line(line) + text) == Tokenizer.Words(line) + Tokenizer.Words(text)
  {
    Tokenizer.WhiteHasNoWords(NEWLINE);
    Tokenizer.WordsConcat(line, NEWLINE);
    assert EndsWhite(Line(line));
    Tokenizer.WordsConcat(Line(line), text);
  }

  ghost predicate EndsWhite(text: string) {
    text != [] && IsWhiteSpace(text[|text| - 1])
  }

  /** The words of the blocks, header and content, one block after the other. */
  function BlockWords(blocks: seq<Block>): seq<string> {
    if blocks == [] then []
    else Tokenizer.Words(Header(blocks[0])) + Tokenizer.Words(blocks[0].content) + BlockWords(blocks[1..])
  }

  lemma WordsOfBlock(block: Block)
    ensures Tokenizer.Words(BlockText(block)) == Tokenizer.Words(Header(block)) + Tokenizer.Words(block.content)
    ensures Cost(block) > 0 && EndsWhite(BlockText(block))
  {
    var header, content := Header(block), Trim(block.content);
    ConcatAssociates(Line(header), Line(content), Line(""));
    LineAdds(header, Line(content) + Line(""));
    LineAdds(content, Line(""));
    Tokenizer.WhiteHasNoWords(Line(""));
    Tokenizer.TrimKeepsWords(block.content);
    assert header[0] == '-';
    Tokenizer.WordsUnfold(header);
  }

  lemma {:induction false} WordsOfBlocks(blocks: seq<Block>)
    ensures Tokenizer.Words(BlocksText(blocks)) == BlockWords(blocks)
  {
    if blocks != [] {
      WordsOfBlock(blocks[0]);
      WordsOfBlocks(blocks[1..]);
      assert Texts(blocks)[1..] == Texts(blocks[1..]);
      Tokenizer.WordsConcat(BlockText(blocks[0]), BlocksText(blocks[1..]));
    }
  }

  lemma {:induction false} CountOfBlocks(blocks: seq<Block>)
    ensures |BlockWords(blocks)| == CostOf(blocks)
  {
    if blocks != [] {
      CountOfBlocks(blocks[1..]);
      assert Costs(blocks)[1..] == Costs(blocks[1..]);
    }
  }

  lemma WordsOfBody(preamble: string, ordered: seq<Block>)
    requires EndsWhite(preamble)
    ensures Tokenizer.Words(Body(preamble, ordered)) == Tokenizer.Words(preamble) + BlockWords(ordered)
  {
    WordsOfBlocks(ordered);
    Tokenizer.WordsConcat(preamble, BlocksText(ordered));
  }

  lemma SystemSays(rq: Request, blocks: seq<Block>)
    ensures Tokenizer.Words(SystemInstruction(rq, blocks))
         == Tokenizer.Words(Preamble(rq)) + BlockWords(Sort(blocks, BlockLe))
  {
    var preamble, ordered := Preamble(rq), Sort(blocks, BlockLe);
    PreambleEndsWhite(rq);
    WordsOfBody(preamble, ordered);
    Tokenizer.TrimKeepsWords(Body(preamble, ordered));
  }

  /** The words of all contents, one message after the other. */
  function Said(messages: seq<Message>): seq<string> {
    if messages == [] then [] else Tokenizer.Words(messages[0].content) + Said(messages[1..])
  }

  /**
    In every format the prompt says the preamble, the blocks by priority, and the instruction, word for
    word and in this order; the formats with one message put a heading before the instruction.
  */
  lemma PromptSays(rq: Request, blocks: seq<Block>)
    requires !rq.capability.format.OtherFormat?
    ensures
      Said(Messages(rq, blocks).value)
      == Tokenizer.Words(Preamble(rq)) + BlockWords(Sort(blocks, BlockLe)) + Tokenizer.Words(Heading(rq))
         + Tokenizer.Words(rq.instruction)
  {
    SystemSays(rq, blocks);
    Tokenizer.TrimKeepsWords(rq.instruction);
    var system, instruction := SystemInstruction(rq, blocks), Trim(rq.instruction);
    var chat, single := ChatPrompt(rq, system), SinglePrompt(rq, system);
    SaidByTwo(chat[0], chat[1]);
    SaidByTwo(single[0], single[0]);
    assert chat == [chat[0], chat[1]] && single == [single[0]];
    if !rq.capability.format.ChatMessages? {
      InstructionAdds(rq, system);
    }
  }

  lemma SaidByTwo(a: Message, b: Message)
    ensures Said([a]) == Tokenizer.Words(a.content)
    ensures Said([a, b]) == Tokenizer.Words(a.content) + Tokenizer.Words(b.content)
  {
    assert [a, b][1..] == [b];
    assert [a][1..] == [] && [b][1..] == [];
  }

  lemma PreambleEndsWhite(rq: Request)
    ensures EndsWhite(Preamble(rq))
  {
  }

  lemma TotalOfTwo(a: Message, b: Message)
    ensures Total(SimpleCount, [a]) == SimpleCount(a.role) + SimpleCount(a.content)
    ensures Total(SimpleCount, [a, b])
         == SimpleCount(a.role) + SimpleCount(a.content) + SimpleCount(b.role) + SimpleCount(b.content)
  {
    assert [a, b][1..] == [b];
    assert [a][1..] == [] && [b][1..] == [];
  }

  lemma HeadedAdds(system: string, intro: string, gap: string, heading: string, text: string)
    requires EndsWhite(gap) && Tokenizer.AllWhite(gap) && intro == gap + Line(heading)
    ensures Tokenizer.Words(system + intro + text)
         == Tokenizer.Words(system) + Tokenizer.Words(heading) + Tokenizer.Words(text)
  {
    var tail := Line(heading) + text;
    LineAdds(heading, text);
    GapAdds(system, gap, tail);
    ConcatAssociates(gap, Line(heading), text);
    ConcatAssociates(system, intro, text);
  }

  lemma GapAdds(text: string, gap: string, tail: string)
    requires EndsWhite(gap) && Tokenizer.AllWhite(gap)
    ensures Tokenizer.Words(text + (gap + tail)) == Tokenizer.Words(text) + Tokenizer.Words(tail)
  {
    Tokenizer.WhiteHasNoWords(gap);
    Tokenizer.WordsConcat(gap, tail);
    assert (gap + tail)[0] == gap[0] && gap[0] in gap;
    Tokenizer.WordsConcat(text, gap + tail);
  }

  lemma InstructionAdds(rq: Request, system: string)
    requires !rq.capability.format.ChatMessages?
    ensures Tokenizer.Words(SinglePrompt(rq, system)[0].content)
         == Tokenizer.Words(system) + Tokenizer.Words(Heading(rq)) + Tokenizer.Words(Trim(rq.instruction))
  {
    IntroIsHeading(rq);
    HeadedAdds(system, INTRO, GAP, Heading(rq), Trim(rq.instruction));
  }

  const GAP := "\n\n"

  lemma IntroIsHeading(rq: Request)
    requires !rq.capability.format.ChatMessages?
    ensures INTRO == GAP + Line(Heading(rq)) && EndsWhite(GAP) && Tokenizer.AllWhite(GAP)
  {
  }

  /** The heading before the instruction, in the formats with one message. */
  function Heading(rq: Request): string {
    if rq.capability.format.ChatMessages? then "" else "User instruction:"
  }

  /** What stands around the system instruction costs the same, whatever the blocks. */
  function Surroundings(rq: Request): int {
    match rq.capability.format
    case ChatMessages =>
      SimpleCount(if rq.capability.supportsSystem then "system" else rq.capability.systemInstructionRole)
      + SimpleCount("user") + SimpleCount(Trim(rq.instruction))
    case _ => SimpleCount("user") + SimpleCount(Heading(rq)) + SimpleCount(Trim(rq.instruction))
  }

  lemma WordsOfPrompt(rq: Request, system: string)
    requires !rq.capability.format.OtherFormat?
    ensures Total(SimpleCount, Prompt(rq, system).value) == Surroundings(rq) + SimpleCount(system)
  {
    var chat, single := ChatPrompt(rq, system), SinglePrompt(rq, system);
    TotalOfTwo(chat[0], chat[1]);
    TotalOfTwo(single[0], single[0]);
    assert chat == [chat[0], chat[1]] && single == [single[0]];
    if !rq.capability.format.ChatMessages? {
      InstructionAdds(rq, system);
    }
  }

  /** The empty prompt costs a fixed number of tokens, and every block adds its own cost. */
  lemma TokensAddUp(rq: Request, blocks: seq<Block>)
    requires !rq.capability.format.OtherFormat? && Sorted(blocks, BlockLe)
    ensures TokensOf(SimpleCount, rq, blocks) == TokensOf(SimpleCount, rq, []) + CostOf(blocks)
  {
    SortOfSorted(blocks, BlockLe);
    SystemSays(rq, blocks);
    SystemSays(rq, []);
    CountOfBlocks(blocks);
    WordsOfPrompt(rq, SystemInstruction(rq, blocks));
    WordsOfPrompt(rq, SystemInstruction(rq, []));
  }

  lemma {:induction false} LongerCostsMore(costs: seq<nat>, j: nat, k: nat)
    requires j <= k <= |costs| && forall i | 0 <= i < |costs| :: costs[i] > 0
    ensures Sum(costs[..j]) + (k - j) <= Sum(costs[..k])
  {
    if k > 0 {
      LongerCostsMore(costs[1..], if j > 0 then j - 1 else 0, k - 1);
      assert costs[..k][1..] == costs[1..][..k - 1];
      assert j > 0 ==> costs[..j][1..] == costs[1..][..j - 1];
    }
  }

  lemma KeptIsSorted(blocks: seq<Block>, k: nat)
    requires k <= |blocks|
    ensures Sorted(Kept(blocks, k), BlockLe) && |Kept(blocks, k)| == k
  {
    BlockOrder();
    SortKeepsLength(blocks);
    SortSorts(blocks, BlockLe);
    PrefixSorted(Sort(blocks, BlockLe), k, BlockLe);
  }

  lemma TokensOfKept(rq: Request, blocks: seq<Block>, k: nat)
    requires !rq.capability.format.OtherFormat? && k <= |blocks|
    ensures TokensOf(SimpleCount, rq, Kept(blocks, k)) == TokensOf(SimpleCount, rq, []) + CostOf(Kept(blocks, k))
  {
    KeptIsSorted(blocks, k);
    TokensAddUp(rq, Kept(blocks, k));
  }

  lemma KeptCostsMore(blocks: seq<Block>, j: nat, k: nat)
    requires j <= k <= |blocks|
    ensures CostOf(Kept(blocks, j)) + (k - j) <= CostOf(Kept(blocks, k))
  {
    SortKeepsLength(blocks);
    var sorted := Sort(blocks, BlockLe);
    CostsArePositive(sorted);
    CostsOfPrefix(sorted, j);
    CostsOfPrefix(sorted, k);
    LongerCostsMore(Costs(sorted), j, k);
  }

  lemma CostsOfPrefix(blocks: seq<Block>, k: nat)
    requires k <= |blocks|
    ensures Costs(blocks[..k]) == Costs(blocks)[..k]
  {
  }

  lemma CostsArePositive(blocks: seq<Block>)
    ensures forall i | 0 <= i < |Costs(blocks)| :: Costs(blocks)[i] > 0
  {
    forall i | 0 <= i < |blocks|
      ensures Costs(blocks)[i] > 0
    {
      WordsOfBlock(blocks[i]);
    }
  }

  /** Every further block makes the prompt longer. */
  lemma TokensIncrease(rq: Request, blocks: seq<Block>, j: nat, k: nat)
    requires !rq.capability.format.OtherFormat? && j <= k <= |blocks|
    ensures TokensOf(SimpleCount, rq, Kept(blocks, j)) + (k - j) <= TokensOf(SimpleCount, rq, Kept(blocks, k))
  {
    TokensOfKept(rq, blocks, j);
    TokensOfKept(rq, blocks, k);
    KeptCostsMore(blocks, j, k);
  }

  /**
    With the simple tokenizer trimming is optimal: what it keeps is the one prefix such that exactly the
    prefixes no longer than it fit; and it fails exactly when the prompt without any block does not fit.
  */
  lemma TrimmingIsOptimal(rq: Request, blocks: seq<Block>, t: Trimmed)
    requires !rq.capability.format.OtherFormat? && IsTrimmed(SimpleCount, rq, blocks, t)
    ensures t.TooLong? <==> TokensOf(SimpleCount, rq, []) > rq.capability.maxInputTokens
    ensures t.Fitting? ==>
      exists k | 0 <= k <= |blocks| ::
        && Messages(rq, Kept(blocks, k)) == Some(t.messages)
        && forall j | 0 <= j <= |blocks| :: Fits(SimpleCount, rq, blocks, j) <==> j <= k
  {
    assert Kept(blocks, 0) == [];
    match t
    case TooLong(_) =>
      assert !Fits(SimpleCount, rq, blocks, 0);
    case Fitting(messages) =>
      var k :| LongestFitting(SimpleCount, rq, blocks, k) && Messages(rq, Kept(blocks, k)) == Some(messages);
      TokensIncrease(rq, blocks, 0, k);
      forall j | 0 <= j <= |blocks|
        ensures Fits(SimpleCount, rq, blocks, j) <==> j <= k
      {
        if j <= k {
          TokensIncrease(rq, blocks, j, k);
        }
      }
  }

  /** The same of the whole generator, for a valid capability and a policy that trims. */
  lemma GenerationIsOptimal(rq: Request, o: Outcome)
    requires CapabilityFailure(rq.capability).None? && !rq.overflow.FailClosed? && IsOutcome(SimpleCount, rq, o)
    ensures o.Failed? <==> TokensOf(SimpleCount, rq, []) > rq.capability.maxInputTokens
    ensures o.Generated? ==>
      var blocks := NormalizeBlocks(rq);
      exists k | 0 <= k <= |blocks| ::
        && Messages(rq, Kept(blocks, k)) == Some(o.messages)
        && forall j | 0 <= j <= |blocks| :: Fits(SimpleCount, rq, blocks, j) <==> j <= k
  {
    var t := match o case Generated(messages, _) => Fitting(messages) case Failed(failure) => TooLong(failure);
    assert IsTrimmed(SimpleCount, rq, NormalizeBlocks(rq), t);
    TrimmingIsOptimal(rq, NormalizeBlocks(rq), t);
  }
}
