/**
  Replay logs: the append-only, hash-linked record that every result step carries.

  A step id is the hash of (parent id, semantic delta, success flag, error code). The model takes
  the hash to be ideal, so an id is the free constructor over exactly these four things.
*/
module ReplayLog {
  import opened Common

  /** A metadata value: text, or a number, instant or log hash whose text layout is left abstract. */
  datatype Text =
    | Str(s: string)
    | Num(n: int)
    | Instant(ticks: int)
    | LogDigest(log: seq<Entry>)

  type Metadata = map<string, Text>

  datatype Origin = Capability | Prompt | Provider | Tokenizer | SemanticHash | KernelFacade

  datatype Slot = SlotG | SlotT | SlotC | SlotB

  datatype Delta = Delta(
    name: string,
    origin: Option<Origin>,
    slot: Option<Slot>,
    metadata: Option<Metadata>,
    kind: Option<string>)

  const EMPTY_DELTA := Delta("none", None, None, None, None)

  /** `Absent` is the null parent of a root step. */
  datatype Id = Absent | Hash(parent: Id, delta: Delta, ok: bool, code: Option<string>)

  datatype Entry = Entry(id: Id, parent: Id, delta: Delta, ok: bool, code: Option<string>)

  /** What an entry says, apart from where it hangs. */
  datatype Payload = Payload(delta: Delta, ok: bool, code: Option<string>)

  function PayloadOf(e: Entry): Payload {
    Payload(e.delta, e.ok, e.code)
  }

  function Payloads(log: seq<Entry>): (ps: seq<Payload>)
    ensures |ps| == |log|
  {
    seq(|log|, i requires 0 <= i < |log| => PayloadOf(log[i]))
  }

  /** The entry with payload `p` under `parent`. */
  function Link(parent: Id, p: Payload): Entry {
    Entry(Hash(parent, p.delta, p.ok, p.code), parent, p.delta, p.ok, p.code)
  }

  function LastId(log: seq<Entry>, root: Id): Id {
    if log == [] then root else log[|log| - 1].id
  }

  /** A strict hash chain: every id is recomputed from its own fields, every parent is the previous id. */
  ghost predicate Chained(log: seq<Entry>, root: Id) {
    log != [] ==>
      var front, last := log[..|log| - 1], log[|log| - 1];
      Chained(front, root) && last == Link(LastId(front, root), PayloadOf(last))
  }

  /** `log` is a strict chain under whatever its first entry hangs from. */
  ghost predicate SelfChained(log: seq<Entry>) {
    log == [] || Chained(log, log[0].parent)
  }

  // ----- rebasing -----

  /** The log re-hung under `parent`, every id recomputed. */
  function Rebase(log: seq<Entry>, parent: Id): (rebased: seq<Entry>)
    ensures |rebased| == |log|
  {
    if log == [] then []
    else
      var earlier := Rebase(log[..|log| - 1], parent);
      earlier + [Link(LastId(earlier, parent), PayloadOf(log[|log| - 1]))]
  }

  /** The array loop of `ResultStep.RebaseReplayLog`, with its running parent id. */
  method RebaseReplayLog(log: seq<Entry>, parentStepId: Id) returns (rebased: seq<Entry>)
    ensures rebased == Rebase(log, parentStepId)
  {
    if |log| == 0 {
      return [];
    }
    var entries := new Entry[|log|];
    var currentParent := parentStepId;
    for i := 0 to |log|
      invariant entries[..i] == Rebase(log[..i], parentStepId)
      invariant currentParent == LastId(entries[..i], parentStepId)
    {
      var stepId := Hash(currentParent, log[i].delta, log[i].ok, log[i].code);
      entries[i] := log[i].(id := stepId, parent := currentParent);
      currentParent := stepId;
      assert log[..i + 1][..i] == log[..i];
      assert entries[..i + 1] == entries[..i] + [entries[i]];
    }
    assert log[..|log|] == log;
    return entries[..];
  }

  lemma ChainExtends(log: seq<Entry>, e: Entry, root: Id)
    ensures Chained(log + [e], root) <==> Chained(log, root) && e == Link(LastId(log, root), PayloadOf(e))
  {
    assert (log + [e])[..|log|] == log;
  }

  lemma ChainOfOne(e: Entry, root: Id)
    ensures Chained([e], root) <==> e == Link(root, PayloadOf(e))
  {
    assert [e][..0] == [];
  }

  /** Entry by entry: each one's parent is the id before it, and its id is the hash of its own fields. */
  lemma {:induction false} ChainedAt(log: seq<Entry>, root: Id, i: nat)
    requires Chained(log, root) && i < |log|
    ensures log[i].parent == if i == 0 then root else log[i - 1].id
    ensures log[i].id == Hash(log[i].parent, log[i].delta, log[i].ok, log[i].code)
  {
    if i < |log| - 1 {
      ChainedAt(log[..|log| - 1], root, i);
    }
  }

  /** Rebasing keeps what the entries say and makes them a strict chain under the new parent. */
  lemma {:induction false} RebaseChains(log: seq<Entry>, parent: Id)
    ensures Chained(Rebase(log, parent), parent)
    ensures Payloads(Rebase(log, parent)) == Payloads(log)
  {
    if log != [] {
      var front := log[..|log| - 1];
      RebaseChains(front, parent);
      var earlier := Rebase(front, parent);
      var e := Link(LastId(earlier, parent), PayloadOf(log[|log| - 1]));
      ChainExtends(earlier, e, parent);
      assert Payloads(log) == Payloads(front) + [PayloadOf(log[|log| - 1])];
      assert Payloads(earlier + [e]) == Payloads(earlier) + [PayloadOf(e)];
    }
  }

  /** A strict chain is determined by its root and by what its entries say. */
  lemma {:induction false} ChainUnique(a: seq<Entry>, b: seq<Entry>, root: Id)
    requires Chained(a, root) && Chained(b, root)
    requires Payloads(a) == Payloads(b)
    ensures a == b
  {
    assert |a| == |Payloads(a)| == |Payloads(b)| == |b|;
    if a != [] {
      var n := |a| - 1;
      assert a == a[..n] + [a[n]] && b == b[..n] + [b[n]];
      ChainExtends(a[..n], a[n], root);
      ChainExtends(b[..n], b[n], root);
      assert Payloads(a[..n]) == Payloads(a)[..n] && Payloads(b[..n]) == Payloads(b)[..n];
      ChainUnique(a[..n], b[..n], root);
      assert PayloadOf(a[n]) == Payloads(a)[n] == Payloads(b)[n] == PayloadOf(b[n]);
    }
  }

  /** Rebasing, characterised without its loop: the only strict chain under `parent` that says the same. */
  lemma RebaseIsTheChain(log: seq<Entry>, parent: Id, chain: seq<Entry>)
    ensures chain == Rebase(log, parent) <==> Chained(chain, parent) && Payloads(chain) == Payloads(log)
  {
    RebaseChains(log, parent);
    if Chained(chain, parent) && Payloads(chain) == Payloads(log) {
      ChainUnique(chain, Rebase(log, parent), parent);
    }
  }

  /** Only the last rebase counts, and rebasing a log that already hangs there changes nothing. */
  lemma RebaseAbsorbs(log: seq<Entry>, first: Id, second: Id)
    ensures Rebase(Rebase(log, first), second) == Rebase(log, second)
    ensures Rebase(log, first) == log <==> Chained(log, first)
  {
    RebaseChains(log, first);
    RebaseChains(log, second);
    RebaseIsTheChain(Rebase(log, first), second, Rebase(log, second));
    RebaseIsTheChain(log, first, log);
  }

  /** Rebasing a concatenation rebases the second part onto the end of the first. */
  lemma {:induction false} RebaseConcat(a: seq<Entry>, b: seq<Entry>, parent: Id)
    ensures Rebase(a + b, parent)
         == Rebase(a, parent) + Rebase(b, LastId(Rebase(a, parent), parent))
  {
    if b == [] {
      assert a + b == a;
    } else {
      var front := b[..|b| - 1];
      assert (a + b)[..|a + b| - 1] == a + front;
      assert (a + b)[|a + b| - 1] == b[|b| - 1];
      RebaseConcat(a, front, parent);
    }
  }

  lemma {:induction false} ChainConcat(a: seq<Entry>, b: seq<Entry>, root: Id)
    ensures Chained(a + b, root) <==> Chained(a, root) && Chained(b, LastId(a, root))
  {
    if b == [] {
      assert a + b == a;
    } else {
      var front := b[..|b| - 1];
      var e := b[|b| - 1];
      assert a + b == (a + front) + [e] && b == front + [e];
      ChainConcat(a, front, root);
      ChainExtends(a + front, e, root);
      ChainExtends(front, e, LastId(a, root));
    }
  }

  lemma PayloadsConcat(a: seq<Entry>, b: seq<Entry>)
    ensures Payloads(a + b) == Payloads(a) + Payloads(b)
  {
  }

  /**
    Tamper evidence under the ideal hash: two strict chains of the same length that end in the same
    id are the same chain, under the same root.
  */
  lemma {:induction false} LastIdFixesTheChain(a: seq<Entry>, b: seq<Entry>, rootA: Id, rootB: Id)
    requires Chained(a, rootA) && Chained(b, rootB)
    requires |a| == |b| > 0
    requires LastId(a, rootA) == LastId(b, rootB)
    ensures a == b && rootA == rootB
  {
    var n := |a| - 1;
    var x, y := a[..n], b[..n];
    assert a == x + [a[n]] && b == y + [b[n]];
    ChainExtends(x, a[n], rootA);
    ChainExtends(y, b[n], rootB);
    SameEntry(x, y, a[n], b[n], rootA, rootB);
    if n > 0 {
      LastIdFixesTheChain(x, y, rootA, rootB);
    }
  }

  lemma SameEntry(x: seq<Entry>, y: seq<Entry>, a: Entry, b: Entry, rootA: Id, rootB: Id)
    requires a == Link(LastId(x, rootA), PayloadOf(a)) && b == Link(LastId(y, rootB), PayloadOf(b))
    requires a.id == b.id
    ensures a == b && LastId(x, rootA) == LastId(y, rootB)
  {
  }

  // ----- concatenation and appending -----

  /** The two copy loops of `ResultStep.ConcatReplayLogs`. */
  method ConcatReplayLogs(first: seq<Entry>, second: seq<Entry>) returns (all: seq<Entry>)
    ensures all == first + second
  {
    if |first| == 0 {
      return second;
    }
    if |second| == 0 {
      return first;
    }
    var entries := new Entry[|first| + |second|];
    for i := 0 to |first|
      invariant entries[..i] == first[..i]
    {
      entries[i] := first[i];
    }
    for i := 0 to |second|
      invariant entries[..|first| + i] == first + second[..i]
    {
      entries[|first| + i] := second[i];
    }
    return entries[..];
  }

  /** The copy loop of `ResultStep.AppendReplayLogEntry`. */
  method AppendReplayLogEntry(log: seq<Entry>, entry: Entry) returns (all: seq<Entry>)
    ensures all == log + [entry]
  {
    var entries := new Entry[|log| + 1];
    for i := 0 to |log|
      invariant entries[..i] == log[..i]
    {
      entries[i] := log[i];
    }
    entries[|log|] := entry;
    return entries[..];
  }

  // ----- marking a failure in place -----

  /** The log after a callback threw: its last entry turned into a failure, or one bare failure entry. */
  function MarkFailure(log: seq<Entry>, code: string): (marked: seq<Entry>)
    ensures |marked| == if log == [] then 1 else |log|
  {
    if log == [] then [Link(Absent, Payload(EMPTY_DELTA, false, Some(code)))]
    else
      var last := log[|log| - 1];
      log[..|log| - 1] + [Link(last.parent, Payload(last.delta, false, Some(code)))]
  }

  /** The last entry failed with the code and got a new id; without any entry, there is one that only failed. */
  ghost predicate IsMarked(log: seq<Entry>, code: string, marked: seq<Entry>) {
    if log == [] then
      var id := Hash(Absent, EMPTY_DELTA, false, Some(code));
      marked == [Entry(id, Absent, EMPTY_DELTA, false, Some(code))]
    else
      var n := |log| - 1;
      var parent, delta := log[n].parent, log[n].delta;
      && |marked| == |log|
      && marked[..n] == log[..n]
      && marked[n] == Entry(Hash(parent, delta, false, Some(code)), parent, delta, false, Some(code))
  }

  /** `ResultStep.MarkCurrentReplayLogFailure`. */
  method MarkCurrentReplayLogFailure(log: seq<Entry>, code: string) returns (marked: seq<Entry>)
    ensures marked == MarkFailure(log, code)
    ensures IsMarked(log, code, marked)
  {
    if |log| == 0 {
      var stepId := Hash(Absent, EMPTY_DELTA, false, Some(code));
      return [Entry(stepId, Absent, EMPTY_DELTA, false, Some(code))];
    }
    var entries := new Entry[|log|];
    for i := 0 to |log|
      invariant entries[..i] == log[..i]
    {
      entries[i] := log[i];
    }
    var current := log[|log| - 1];
    entries[|log| - 1] := current.(
      id := Hash(current.parent, current.delta, false, Some(code)),
      ok := false,
      code := Some(code));
    assert entries[..|log| - 1] == log[..|log| - 1];
    assert entries[..] == entries[..|log| - 1] + [entries[|log| - 1]];
    return entries[..];
  }

  /** Marking touches the last entry only, keeps its delta, and keeps a strict chain strict. */
  lemma MarkKeepsTheChain(log: seq<Entry>, code: string, root: Id)
    requires log != [] && Chained(log, root)
    ensures Chained(MarkFailure(log, code), root)
    ensures MarkFailure(log, code)[..|log| - 1] == log[..|log| - 1]
    ensures PayloadOf(MarkFailure(log, code)[|log| - 1])
         == Payload(log[|log| - 1].delta, false, Some(code))
  {
    var n := |log| - 1;
    assert log == log[..n] + [log[n]];
    ChainExtends(log[..n], log[n], root);
    ChainExtends(log[..n], MarkFailure(log, code)[n], root);
    assert MarkFailure(log, code) == log[..n] + [MarkFailure(log, code)[n]];
  }

  /** Marking and rebasing commute on a non-empty log. */
  lemma MarkCommutesWithRebase(log: seq<Entry>, code: string, parent: Id)
    requires log != []
    ensures Rebase(MarkFailure(log, code), parent) == MarkFailure(Rebase(log, parent), code)
  {
    var marked := MarkFailure(log, code);
    assert marked[..|log| - 1] == log[..|log| - 1];
  }
}
