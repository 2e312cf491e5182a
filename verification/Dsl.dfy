/** The pipeline DSL: its syntax tree, its run-time values, and the compile-time validation. */
module Dsl {
  import opened Common
  import opened ReplayLog
  import opened ResultSteps

  datatype Node =
    | Pipeline(steps: seq<Node>)
    | Step(name: string)
    | Call(name: string, args: map<string, string>)
    | Loop(max: int, body: seq<Node>)
    | LoopUntil(timeout: int, max: int, body: seq<Node>)
    | Suspend(reason: string)
    | Unsupported(kind: string)  // any other subclass of the node record

  function Children(node: Node): (children: seq<Node>)
    ensures forall c | c in children :: c < node
  {
    match node
    case Pipeline(steps) => steps
    case Loop(_, body) => body
    case LoopUntil(_, _, body) => body
    case _ => []
  }

  /** `inner` is `node` or occurs somewhere below it. */
  ghost predicate Within(inner: Node, node: Node)
    decreases node
  {
    inner == node || exists c | c in Children(node) :: Within(inner, c)
  }

  // ----- compilation -----

  type Contains = string -> Attempt<bool>

  function CompileError(failure: FailureKind): Error {
    Error("DSL_COMPILE_ERROR", false, Some(failure), Some(KernelFacade), Some(SlotT), None)
  }

  function CapabilityResolutionFailure(name: string, exn: Exn): Error {
    CapabilityException(name, FromException(exn))
  }

  /** An error re-labelled as a fail-closed capability error that names the capability. */
  function CapabilityException(name: string, source: Error): Error {
    source.(
      failure := Some(FailClosed),
      origin := Some(Capability),
      slot := Some(SlotT),
      metadata := Some((if source.metadata.Some? then source.metadata.value else map[])
                       ["dsl.capability_name" := Str(name)]))
  }

  function Check(ok: bool): Outcome<bool> {
    if ok then Ok(true) else Err(CompileError(Reject))
  }

  function Both(first: Outcome<bool>, second: Outcome<bool>): Outcome<bool> {
    if first.Ok? then second else first
  }

  function ValidateCapabilityExists(contains: Contains, name: string): Outcome<bool> {
    match contains(name)
    case Threw(exn) => Err(CapabilityResolutionFailure(name, exn))
    case Returned(exists_) => Check(exists_)
  }

  predicate ArgsAreNamed(args: map<string, string>) {
    forall key | key in args :: !IsBlank(key)
  }

  function ValidateNode(contains: Contains, node: Node): Outcome<bool>
    decreases node, 0
  {
    match node
    case Pipeline(steps) => ValidateNodes(contains, steps)
    case Step(name) => Check(!IsBlank(name))
    case Call(name, args) =>
      Both(Both(Check(!IsBlank(name)), Check(ArgsAreNamed(args))), ValidateCapabilityExists(contains, name))
    case Loop(max, body) => Both(Check(max >= 0), ValidateNodes(contains, body))
    case LoopUntil(timeout, max, body) =>
      Both(Check(timeout >= 0), Both(Check(max >= 0), ValidateNodes(contains, body)))
    case Suspend(reason) => Check(!IsBlank(reason))
    case Unsupported(_) => Err(CompileError(Reject))
  }

  function ValidateNodes(contains: Contains, nodes: seq<Node>): Outcome<bool>
    decreases nodes, 0
  {
    if nodes == [] then Ok(true)
    else Both(ValidateNode(contains, nodes[0]), ValidateNodes(contains, nodes[1..]))
  }

  /** `Compile`: the accepted root is the compiled pipeline. */
  function Compile(contains: Contains, root: Node): Outcome<Node> {
    if !root.Pipeline? then Err(CompileError(Reject))
    else
      match ValidateNodes(contains, root.steps)
      case Ok(_) => Ok(root)
      case Err(error) => Err(error)
  }

  /** What one node must satisfy, apart from the nodes below it. */
  predicate LocallyValid(contains: Contains, node: Node) {
    match node
    case Pipeline(_) => true
    case Step(name) => !IsBlank(name)
    case Call(name, args) => !IsBlank(name) && ArgsAreNamed(args) && contains(name) == Returned(true)
    case Loop(max, _) => max >= 0
    case LoopUntil(timeout, max, _) => timeout >= 0 && max >= 0
    case Suspend(reason) => !IsBlank(reason)
    case Unsupported(_) => false
  }

  ghost predicate Valid(contains: Contains, node: Node) {
    forall inner | Within(inner, node) :: LocallyValid(contains, inner)
  }

  lemma {:induction false} ValidUnfolds(contains: Contains, node: Node)
    ensures Valid(contains, node) <==>
      LocallyValid(contains, node) && forall c | c in Children(node) :: Valid(contains, c)
  {
    if Valid(contains, node) {
      assert Within(node, node);
      forall c, inner | c in Children(node) && Within(inner, c)
        ensures LocallyValid(contains, inner)
      {
        assert Within(inner, node);
      }
    } else {
      var bad :| Within(bad, node) && !LocallyValid(contains, bad);
      if bad != node {
        var c :| c in Children(node) && Within(bad, c);
        assert !Valid(contains, c);
      }
    }
  }

  lemma {:induction false} NodeAccepted(contains: Contains, node: Node)
    ensures ValidateNode(contains, node).Ok? <==> Valid(contains, node)
    decreases node, 1
  {
    ValidUnfolds(contains, node);
    match node
    case Pipeline(steps) => NodesAccepted(contains, steps);
    case Loop(_, body) => NodesAccepted(contains, body);
    case LoopUntil(_, _, body) => NodesAccepted(contains, body);
    case _ =>
  }

  lemma {:induction false} NodesAccepted(contains: Contains, nodes: seq<Node>)
    ensures ValidateNodes(contains, nodes).Ok? <==> forall n | n in nodes :: Valid(contains, n)
    decreases nodes, 0
  {
    if nodes != [] {
      NodeAccepted(contains, nodes[0]);
      NodesAccepted(contains, nodes[1..]);
      assert forall n :: n in nodes <==> n == nodes[0] || n in nodes[1..];
    }
  }

  /** A document compiles exactly when its root is a pipeline and every node at any depth is valid. */
  lemma CompileAccepts(contains: Contains, root: Node)
    ensures Compile(contains, root).Ok? <==> root.Pipeline? && Valid(contains, root)
    ensures Compile(contains, root).Ok? ==> Compile(contains, root).value == root
  {
    if root.Pipeline? {
      NodesAccepted(contains, root.steps);
      ValidUnfolds(contains, root);
    }
  }

  // ----- compile errors -----

  /** The nodes of a document in the order in which they are written, each before the nodes below it. */
  ghost function Written(node: Node): seq<Node>
    decreases node, 0
  {
    match node
    case Pipeline(steps) => [node] + WrittenIn(steps)
    case Loop(_, body) => [node] + WrittenIn(body)
    case LoopUntil(_, _, body) => [node] + WrittenIn(body)
    case _ => [node]
  }

  ghost function WrittenIn(nodes: seq<Node>): seq<Node>
    decreases nodes, 0
  {
    if nodes == [] then [] else Written(nodes[0]) + WrittenIn(nodes[1..])
  }

  /** What is wrong with a node: its capability cannot be looked up, or it is rejected. */
  ghost predicate Objects(contains: Contains, node: Node, error: Error) {
    if node.Call? && !IsBlank(node.name) && ArgsAreNamed(node.args) && contains(node.name).Threw? then
      error == Error(
        "UNHANDLED_EXCEPTION", false, Some(FailClosed), Some(Capability), Some(SlotT),
        Some(map["exception_type" := Str(contains(node.name).exn.typeName), "dsl.capability_name" := Str(node.name)]))
    else error == Error("DSL_COMPILE_ERROR", false, Some(Reject), Some(KernelFacade), Some(SlotT), None)
  }

  /** The error reports the first node that is not valid by itself; without one there is no error. */
  ghost predicate ObjectsToFirst(contains: Contains, nodes: seq<Node>, result: Outcome<bool>)
    decreases |nodes|
  {
    if nodes == [] then result == Ok(true)
    else if LocallyValid(contains, nodes[0]) then ObjectsToFirst(contains, nodes[1..], result)
    else result.Err? && Objects(contains, nodes[0], result.error)
  }

  /** A document that does not compile gets the error of its root, or of its first invalid node as written. */
  lemma CompileReports(contains: Contains, root: Node)
    requires Compile(contains, root).Err?
    ensures
      var error := Compile(contains, root).error;
      if root.Pipeline? then ObjectsToFirst(contains, Written(root), Err(error))
      else error == Error("DSL_COMPILE_ERROR", false, Some(Reject), Some(KernelFacade), Some(SlotT), None)
  {
    if root.Pipeline? {
      NodeObjects(contains, root);
    }
  }

  lemma {:induction false} NodeObjects(contains: Contains, node: Node)
    ensures ObjectsToFirst(contains, Written(node), ValidateNode(contains, node))
    decreases node, 1
  {
    match node
    case Pipeline(steps) =>
      NodesObject(contains, steps);
      HeadObjects(contains, node, WrittenIn(steps), ValidateNodes(contains, steps));
    case Loop(_, body) =>
      NodesObject(contains, body);
      HeadObjects(contains, node, WrittenIn(body), ValidateNodes(contains, body));
    case LoopUntil(_, _, body) =>
      NodesObject(contains, body);
      HeadObjects(contains, node, WrittenIn(body), ValidateNodes(contains, body));
    case _ =>
      assert [node][1..] == [];
      LeafObjects(contains, node);
  }

  lemma LeafObjects(contains: Contains, node: Node)
    requires !node.Pipeline? && !node.Loop? && !node.LoopUntil?
    ensures if LocallyValid(contains, node) then ValidateNode(contains, node) == Ok(true)
            else ValidateNode(contains, node).Err? && Objects(contains, node, ValidateNode(contains, node).error)
  {
    if node.Call? && contains(node.name).Threw? {
      var texts: Metadata := map["exception_type" := Str(contains(node.name).exn.typeName)];
      assert texts["dsl.capability_name" := Str(node.name)]
          == map["exception_type" := Str(contains(node.name).exn.typeName), "dsl.capability_name" := Str(node.name)];
    }
  }

  lemma HeadObjects(contains: Contains, node: Node, below: seq<Node>, result: Outcome<bool>)
    requires ObjectsToFirst(contains, below, result)
    ensures LocallyValid(contains, node) ==> ObjectsToFirst(contains, [node] + below, result)
    ensures !LocallyValid(contains, node) && !(node.Call? && contains(node.name).Threw?) ==>
      ObjectsToFirst(contains, [node] + below, Err(CompileError(Reject)))
  {
    assert ([node] + below)[1..] == below;
  }

  lemma {:induction false} NodesObject(contains: Contains, nodes: seq<Node>)
    ensures ObjectsToFirst(contains, WrittenIn(nodes), ValidateNodes(contains, nodes))
    decreases nodes, 0
  {
    if nodes != [] {
      NodeObjects(contains, nodes[0]);
      NodesObject(contains, nodes[1..]);
      ObjectsInTurn(contains, Written(nodes[0]), WrittenIn(nodes[1..]), ValidateNode(contains, nodes[0]),
                    ValidateNodes(contains, nodes[1..]));
    }
  }

  lemma {:induction false} ObjectsInTurn(
    contains: Contains, a: seq<Node>, b: seq<Node>, first: Outcome<bool>, second: Outcome<bool>)
    requires ObjectsToFirst(contains, a, first) && ObjectsToFirst(contains, b, second)
    ensures ObjectsToFirst(contains, a + b, if first.Ok? then second else first)
    decreases |a|
  {
    if a == [] {
      assert [] + b == b;
    } else {
      assert (a + b)[1..] == a[1..] + b;
      if LocallyValid(contains, a[0]) {
        ObjectsInTurn(contains, a[1..], b, first, second);
      }
    }
  }

  // ----- calls -----

  /** The capability names a node can call. */
  ghost function Calls(node: Node): set<string>
    decreases node, 0
  {
    match node
    case Call(name, _) => {name}
    case Pipeline(steps) => CallsOfAll(steps)
    case Loop(_, body) => CallsOfAll(body)
    case LoopUntil(_, _, body) => CallsOfAll(body)
    case _ => {}
  }

  ghost function CallsOfAll(nodes: seq<Node>): set<string>
    decreases nodes, 0
  {
    if nodes == [] then {} else Calls(nodes[0]) + CallsOfAll(nodes[1..])
  }

  lemma {:induction false} ValidCallsExist(contains: Contains, node: Node)
    requires Valid(contains, node)
    ensures forall name | name in Calls(node) :: contains(name) == Returned(true)
    decreases node, 1
  {
    ValidUnfolds(contains, node);
    match node
    case Pipeline(steps) => ValidCallsOfAllExist(contains, steps);
    case Loop(_, body) => ValidCallsOfAllExist(contains, body);
    case LoopUntil(_, _, body) => ValidCallsOfAllExist(contains, body);
    case _ =>
  }

  lemma {:induction false} ValidCallsOfAllExist(contains: Contains, nodes: seq<Node>)
    requires forall n | n in nodes :: Valid(contains, n)
    ensures forall name | name in CallsOfAll(nodes) :: contains(name) == Returned(true)
    decreases nodes, 0
  {
    if nodes != [] {
      ValidCallsExist(contains, nodes[0]);
      ValidCallsOfAllExist(contains, nodes[1..]);
    }
  }
}
