/** Compiling parsed nodes into generated text, piece by piece and at every depth. */
module ViewCompile {
  import opened Basics
  import opened SourceMap
  import opened ViewNodes
  import opened ViewRewrite

  /** Where nodes are compiled: in the page itself; in the definition of the component that `call` calls from `caller`, its
      variables numbered; or in content that `of` hands to a slot, which has no slots of its own. */
  datatype Scope = Page | Within(call: Node, caller: Scope, number: nat) | Content(of: Scope)

  /** What a piece of code is for. It opens a control directive with its pipeline, the errors of a field, or a component with
      the number of its variables; it starts a branch with its pipeline, or the other body; it ends what was opened last; or
      it does none of these. */
  datatype Role =
    | Emits
    | Opens(kind: Keyword, pipeline: Bytes)
    | Lists(field: string)
    | Enters(component: string, number: nat)
    | Branches(pipeline: Bytes)
    | Otherwise
    | Ends

  /** Generated text with the span it is made from: the copy of a text or an action, or code. A synthetic copy differs from
      the source. */
  datatype Piece = Copy(text: Bytes, span: Span, synthetic: bool) | Code(text: Bytes, span: Span, role: Role)

  predicate IsSynthetic(p: Piece) {
    p.Code? || p.synthetic
  }

  /** A line of code. */
  datatype Line = Line(text: Bytes, span: Span, role: Role)

  /** Code of a directive, and the last number used for fresh variables. */
  datatype Emission = Emission(code: seq<Line>, counter: nat)

  /** Code that opens and ends nothing, and the last number used for fresh variables. */
  datatype Fragment = Fragment(code: seq<(Bytes, Span)>, counter: nat)

  /** The nodes of the page and of the components by name, and the texts of the template language. `props` are the
      variables a component declares and `prefix` what numbers them; `opening` and `branching` are the actions of control
      directives, `listing` that of @errors and `entering` that of a component; `refuses` says whether a directive is an
      error where it stands; `emit` is the code of a directive without a body, and that before @errors; `enter` is the code
      that gives a component its variables. */
  datatype Generator = Generator(
    page: seq<Node>,
    components: map<string, seq<Node>>,
    props: string -> seq<Bytes>,
    prefix: nat -> Bytes,
    trim: Bytes -> Bytes,
    blank: Bytes -> bool,
    opening: (Keyword, Bytes) -> Bytes,
    branching: Bytes -> Bytes,
    otherwise: Bytes,
    ending: Bytes,
    listing: (Scope, nat, Node) -> Bytes,
    entering: Bytes,
    refuses: (Scope, Node) -> bool,
    emit: (Scope, nat, Node) -> Fragment,
    enter: (Scope, nat, Node) -> seq<(Bytes, Span)>)

  // ---- scopes -------------------------------------------------------------------------------------------

  function NameOfCall(call: Node): string {
    if call.Block? then call.name else ""
  }

  function BodyOfCall(call: Node): seq<Node> {
    if call.Block? then call.children else []
  }

  /** The components being compiled. */
  function Active(scope: Scope): seq<string> {
    match scope
    case Page => []
    case Within(call, caller, _) => Active(caller) + [NameOfCall(call)]
    case Content(of) => Active(of)
  }

  /** The scope with its variables unnumbered: what directives mean does not depend on the numbers. */
  function Bare(scope: Scope): Scope {
    match scope
    case Page => Page
    case Within(call, caller, _) => Within(call, Bare(caller), 0)
    case Content(of) => Content(Bare(of))
  }

  /** The declared variables with their numbered names, over those of the caller. */
  function Bound(outer: Bindings, props: seq<Bytes>, prefix: Bytes): Bindings
    decreases |props|
  {
    if props == [] then outer else Bound(outer[props[0] := prefix + props[0]], props[1..], prefix)
  }

  function BindingsOf(g: Generator, scope: Scope): Bindings {
    match scope
    case Page => map[]
    case Within(call, caller, number) => Bound(BindingsOf(g, caller), g.props(NameOfCall(call)), g.prefix(number))
    case Content(of) => BindingsOf(g, of)
  }

  /** What content is compiled in that stands in this scope. */
  function Outer(scope: Scope): Scope {
    if scope.Within? then Content(scope) else scope
  }

  predicate IsSlot(node: Node) {
    node.Block? && node.kind == Slot
  }

  /** The slots given by name in a component call. */
  function Named(nodes: seq<Node>): map<string, seq<Node>> {
    if nodes == [] then map[]
    else if IsSlot(nodes[0]) then Named(nodes[1..])[nodes[0].name := nodes[0].children]
    else Named(nodes[1..])
  }

  /** The rest of the call's body. */
  function Loose(nodes: seq<Node>): seq<Node> {
    if nodes == [] then [] else (if IsSlot(nodes[0]) then [] else [nodes[0]]) + Loose(nodes[1..])
  }

  predicate HasContent(g: Generator, nodes: seq<Node>) {
    exists i :: 0 <= i < |nodes| && (!nodes[i].Text? || !g.blank(nodes[i].text))
  }

  /** The content a call gives to the slots of its component. */
  function Provided(g: Generator, call: Node): map<string, seq<Node>> {
    var loose := Loose(BodyOfCall(call));
    if HasContent(g, loose) then Named(BodyOfCall(call))["default" := loose] else Named(BodyOfCall(call))
  }

  // ---- what directives stand for ---------------------------------------------------------------------------

  /** The bodies pushed to a stack, in the order of the page; a push inside a push is not one. */
  function Pushed(nodes: seq<Node>, name: string): seq<Node>
    decreases nodes, 1
  {
    if nodes == [] then [] else PushedBy(nodes[0], name) + Pushed(nodes[1..], name)
  }

  function PushedBy(node: Node, name: string): seq<Node>
    decreases node, 0
  {
    match node
    case Block(k, n, _, _, _, _, children) => if k == Push then (if n == name then children else []) else Pushed(children, name)
    case Control(_, _, _, _, _, children, branches, alternate) =>
      Pushed(children, name) + PushedInBranches(branches, name) +
      if alternate.Alternate? then Pushed(alternate.nodes, name) else []
    case _ => []
  }

  function PushedInBranches(branches: seq<Branch>, name: string): seq<Node>
    decreases branches, 0
  {
    if branches == [] then [] else Pushed(branches[0].nodes, name) + PushedInBranches(branches[1..], name)
  }

  /** The directives that stand for nodes from elsewhere. */
  predicate Expands(node: Node) {
    (node.Leaf? && node.kind == Stack) || (node.Block? && (node.kind == Component || node.kind == Slot))
  }

  function Plainly(code: seq<(Bytes, Span)>): seq<Line> {
    seq(|code|, i requires 0 <= i < |code| => Line(code[i].0, code[i].1, Emits))
  }

  /** The code of a directive without a body, and of the start of @errors. */
  function Emit(g: Generator, scope: Scope, counter: nat, node: Node): Emission {
    var f := g.emit(scope, counter, node);
    if node.Block? then Emission(Plainly(f.code) + [Line(g.listing(scope, f.counter, node), node.span, Lists(node.name))], f.counter)
    else Emission(Plainly(f.code), f.counter)
  }

  /** Nodes from elsewhere, the scope they are compiled in, and the code around them. */
  datatype Expansion = Expansion(before: Emission, nodes: seq<Node>, scope: Scope, after: seq<Line>)

  /** What a component call, a slot or a stack stands for. */
  function Lookup(g: Generator, scope: Scope, counter: nat, node: Node): Option<Expansion>
    requires Expands(node)
  {
    if node.kind == Stack then Some(Expansion(Emission([], counter), Pushed(g.page, node.name), scope, []))
    else if node.kind == Slot then
      if !scope.Within? then None
      else
        var given := Provided(g, scope.call);
        if node.name in given then Some(Expansion(Emission([], counter), given[node.name], Outer(scope.caller), []))
        else Some(Expansion(Emission([], counter), node.children, scope, []))
    else if node.name !in g.components || node.name in Active(scope) || g.refuses(Bare(scope), node) then None
    else
      var before := [Line(g.entering, node.span, Enters(node.name, counter + 1))] + Plainly(g.enter(scope, counter + 1, node));
      Some(Expansion(Emission(before, counter + 1), g.components[node.name], Within(node, scope, counter + 1),
                     [Line(g.ending, node.span, Ends)]))
  }

  // ---- what nodes compile to ------------------------------------------------------------------------------

  /** The pieces so far, and the last number used for fresh variables. */
  datatype Output = Output(pieces: seq<Piece>, counter: nat)

  /** A result, an error, or expansions that nest deeper than the bound. */
  datatype Outcome = Done(out: Output) | Refused | TooDeep

  function Put(out: Output, p: Piece): Output {
    out.(pieces := out.pieces + [p])
  }

  function PutCode(out: Output, code: seq<Line>): Output
    decreases |code|
  {
    if code == [] then out else PutCode(Put(out, Code(code[0].text, code[0].span, code[0].role)), code[1..])
  }

  function PutEmission(out: Output, e: Emission): Output {
    PutCode(out, e.code).(counter := e.counter)
  }

  /** Directives that have no place in a resolved view. */
  predicate Misplaced(node: Node) {
    || (node.Leaf? && (node.kind == Yield || node.kind == Extends || node.kind == Props))
    || (node.Block? && (node.kind == Section || !IsBlock(node.kind)))
  }

  /** The piece of a text or an action. */
  function CopyOf(g: Generator, scope: Scope, node: Node): Piece
    requires node.Text? || node.Action?
  {
    if node.Text? then Copy(node.text, node.span, |node.text| != node.span.end - node.span.start)
    else
      var rewritten := Rewritten(node.text, BindingsOf(g, scope));
      Copy(rewritten, node.span, rewritten != node.text)
  }

  function Opening(g: Generator, scope: Scope, node: Node): Piece
    requires node.Control?
  {
    var pipeline := Rewritten(g.trim(node.raw), BindingsOf(g, scope));
    Code(g.opening(node.kind, pipeline), node.span, Opens(node.kind, pipeline))
  }

  function Branching(g: Generator, scope: Scope, branch: Branch): Piece {
    var pipeline := Rewritten(g.trim(branch.raw), BindingsOf(g, scope));
    Code(g.branching(pipeline), branch.span, Branches(pipeline))
  }

  /** What compiling the nodes adds to the output; `depth` bounds how deep expansions nest. */
  function Compiled(g: Generator, scope: Scope, nodes: seq<Node>, depth: nat, out: Output): Outcome
    decreases depth, nodes, 2
  {
    if nodes == [] then Done(out)
    else
      var o := CompiledNode(g, scope, nodes[0], depth, out);
      if o.Done? then Compiled(g, scope, nodes[1..], depth, o.out) else o
  }

  function CompiledNode(g: Generator, scope: Scope, node: Node, depth: nat, out: Output): Outcome
    decreases depth, node, 1
  {
    if node.Text? || node.Action? then Done(Put(out, CopyOf(g, scope, node)))
    else if Misplaced(node) then Refused
    else if Expands(node) then CompiledElsewhere(g, scope, node, depth, out)
    else if node.Leaf? then CompiledEmission(g, scope, node, out)
    else if node.Control? then CompiledControl(g, scope, node, depth, out)
    else if node.kind == Push then Done(out)
    else CompiledErrors(g, scope, node, depth, out)
  }

  function CompiledEmission(g: Generator, scope: Scope, node: Node, out: Output): Outcome {
    if g.refuses(Bare(scope), node) then Refused else Done(PutEmission(out, Emit(g, scope, out.counter, node)))
  }

  function CompiledElsewhere(g: Generator, scope: Scope, node: Node, depth: nat, out: Output): Outcome
    requires Expands(node)
    decreases depth, node, 0
  {
    var e := Lookup(g, scope, out.counter, node);
    if e.None? then Refused
    else if depth == 0 then TooDeep
    else
      var o := Compiled(g, e.value.scope, e.value.nodes, depth - 1, PutEmission(out, e.value.before));
      if o.Done? then Done(PutCode(o.out, e.value.after)) else o
  }

  function CompiledErrors(g: Generator, scope: Scope, node: Node, depth: nat, out: Output): Outcome
    requires node.Block?
    decreases depth, node, 0
  {
    var start := CompiledEmission(g, scope, node, out);
    if !start.Done? then start
    else
      var o := Compiled(g, scope, node.children, depth, start.out);
      if o.Done? then Done(Put(o.out, Code(g.ending, node.span, Ends))) else o
  }

  function CompiledControl(g: Generator, scope: Scope, node: Node, depth: nat, out: Output): Outcome
    requires node.Control?
    decreases depth, node, 0, 1
  {
    var first := Compiled(g, scope, node.children, depth, Put(out, Opening(g, scope, node)));
    if first.Done? then CompiledRest(g, scope, node, depth, first.out) else first
  }

  /** What follows the first body of a control directive. */
  function CompiledRest(g: Generator, scope: Scope, node: Node, depth: nat, out: Output): Outcome
    requires node.Control?
    decreases depth, node, 0, 0
  {
    var middle := CompiledBranches(g, scope, node.branches, depth, out);
    if !middle.Done? then middle
    else
      var last := CompiledAlternate(g, scope, node.span, node.alternate, depth, middle.out);
      if last.Done? then Done(Put(last.out, Code(g.ending, node.span, Ends))) else last
  }

  function CompiledBranches(g: Generator, scope: Scope, branches: seq<Branch>, depth: nat, out: Output): Outcome
    decreases depth, branches, 0
  {
    if branches == [] then Done(out)
    else
      var o := Compiled(g, scope, branches[0].nodes, depth, Put(out, Branching(g, scope, branches[0])));
      if o.Done? then CompiledBranches(g, scope, branches[1..], depth, o.out) else o
  }

  /** An @else or @empty with an empty body leaves no trace. */
  function CompiledAlternate(g: Generator, scope: Scope, span: Span, alternate: Alternate, depth: nat, out: Output): Outcome
    decreases depth, alternate, 0
  {
    if alternate.NoAlternate? || alternate.nodes == [] then Done(out)
    else Compiled(g, scope, alternate.nodes, depth, Put(out, Code(g.otherwise, span, Otherwise)))
  }

  // ---- which nodes may be copied ------------------------------------------------------------------------

  /** Text and actions are of the files they name: copies, or the one-byte text of the escape. */
  predicate Sound(sources: Sources, node: Node)
    decreases node
  {
    match node
    case Text(text, span) =>
      && Placed(sources, span)
      && (text == sources[span.path][span.start..span.end] || |text| != span.end - span.start)
    case Action(text, span) => Placed(sources, span) && text == sources[span.path][span.start..span.end]
    case Leaf(_, _, _, _) => true
    case Block(_, _, _, _, _, _, children) => AllSound(sources, children)
    case Control(_, _, _, _, _, children, branches, alternate) =>
      && AllSound(sources, children)
      && (forall i :: 0 <= i < |branches| ==> AllSound(sources, branches[i].nodes))
      && (alternate.Alternate? ==> AllSound(sources, alternate.nodes))
  }

  predicate AllSound(sources: Sources, nodes: seq<Node>)
    decreases nodes
  {
    forall i :: 0 <= i < |nodes| ==> Sound(sources, nodes[i])
  }

  /** The page and the components are sound. */
  ghost predicate SoundGenerator(g: Generator, sources: Sources) {
    AllSound(sources, g.page) && forall name :: name in g.components ==> AllSound(sources, g.components[name])
  }

  /** So are the calls that lead to a scope. */
  predicate SoundScope(sources: Sources, scope: Scope) {
    match scope
    case Page => true
    case Within(call, caller, _) => Sound(sources, call) && SoundScope(sources, caller)
    case Content(of) => SoundScope(sources, of)
  }

  lemma {:induction false} PushedIsSound(sources: Sources, nodes: seq<Node>, name: string)
    requires AllSound(sources, nodes)
    ensures AllSound(sources, Pushed(nodes, name))
    decreases nodes, 1
  {
    if nodes != [] {
      PushedByIsSound(sources, nodes[0], name);
      PushedIsSound(sources, nodes[1..], name);
    }
  }

  lemma {:induction false} PushedByIsSound(sources: Sources, node: Node, name: string)
    requires Sound(sources, node)
    ensures AllSound(sources, PushedBy(node, name))
    decreases node, 0
  {
    match node
    case Block(_, _, _, _, _, _, children) => PushedIsSound(sources, children, name);
    case Control(_, _, _, _, _, children, branches, alternate) =>
      PushedIsSound(sources, children, name);
      PushedInBranchesIsSound(sources, branches, name);
      if alternate.Alternate? {
        PushedIsSound(sources, alternate.nodes, name);
      }
    case _ =>
  }

  lemma {:induction false} PushedInBranchesIsSound(sources: Sources, branches: seq<Branch>, name: string)
    requires forall i :: 0 <= i < |branches| ==> AllSound(sources, branches[i].nodes)
    ensures AllSound(sources, PushedInBranches(branches, name))
    decreases branches, 0
  {
    if branches != [] {
      PushedIsSound(sources, branches[0].nodes, name);
      PushedInBranchesIsSound(sources, branches[1..], name);
    }
  }

  lemma {:induction false} NamedIsSound(sources: Sources, nodes: seq<Node>)
    requires AllSound(sources, nodes)
    ensures AllSound(sources, Loose(nodes))
    ensures forall name :: name in Named(nodes) ==> AllSound(sources, Named(nodes)[name])
  {
    if nodes != [] {
      assert Sound(sources, nodes[0]);
      NamedIsSound(sources, nodes[1..]);
    }
  }

  /** What a sound directive stands for is sound too. */
  lemma LookupIsSound(sources: Sources, g: Generator, scope: Scope, counter: nat, node: Node)
    requires SoundGenerator(g, sources) && SoundScope(sources, scope) && Sound(sources, node) && Expands(node)
    requires Lookup(g, scope, counter, node).Some?
    ensures AllSound(sources, Lookup(g, scope, counter, node).value.nodes)
    ensures SoundScope(sources, Lookup(g, scope, counter, node).value.scope)
  {
    if node.kind == Stack {
      PushedIsSound(sources, g.page, node.name);
    } else if node.kind == Slot {
      NamedIsSound(sources, BodyOfCall(scope.call));
    }
  }

  /** The nodes of a parsed file are sound. */
  lemma {:induction false} GoodIsSound(v: View, sources: Sources, node: Node)
    requires Good(v, node) && v.path in sources && sources[v.path] == v.source
    ensures Sound(sources, node)
    decreases node
  {
    match node
    case Block(_, _, _, _, _, _, children) => AllGoodIsSound(v, sources, children);
    case Control(_, _, _, _, _, children, branches, alternate) =>
      AllGoodIsSound(v, sources, children);
      forall i | 0 <= i < |branches|
        ensures AllSound(sources, branches[i].nodes)
      {
        AllGoodIsSound(v, sources, branches[i].nodes);
      }
      if alternate.Alternate? {
        AllGoodIsSound(v, sources, alternate.nodes);
      }
    case _ =>
  }

  lemma {:induction false} AllGoodIsSound(v: View, sources: Sources, nodes: seq<Node>)
    requires AllGood(v, nodes) && v.path in sources && sources[v.path] == v.source
    ensures AllSound(sources, nodes)
    decreases nodes
  {
    forall i | 0 <= i < |nodes|
      ensures Sound(sources, nodes[i])
    {
      GoodIsSound(v, sources, nodes[i]);
    }
  }

  // ---- the generated text -------------------------------------------------------------------------------------

  function Texts(ps: seq<Piece>): Bytes {
    if ps == [] then [] else Texts(ps[..|ps| - 1]) + ps[|ps| - 1].text
  }

  /** One mapping for each piece that is not empty, where its text lies in the generated text. */
  function Maps(ps: seq<Piece>): seq<Mapping> {
    if ps == [] then []
    else
      var start := |Texts(ps[..|ps| - 1])|;
      var p := ps[|ps| - 1];
      Maps(ps[..|ps| - 1]) +
      if p.text == [] then [] else [Mapping(start, start + |p.text|, p.span.start, p.span.path, p.span.place, IsSynthetic(p))]
  }

  /** A piece the builder may take: empty, synthetic, or a copy of its span. */
  predicate Honest(sources: Sources, p: Piece) {
    !IsSynthetic(p) && p.text != [] ==> Placed(sources, p.span) && p.text == sources[p.span.path][p.span.start..p.span.end]
  }

  // ---- which actions are copied ----------------------------------------------------------------------------

  lemma {:induction false} BoundIsLonger(outer: Bindings, props: seq<Bytes>, prefix: Bytes)
    requires Longer(outer) && |prefix| > 1
    ensures Longer(Bound(outer, props, prefix))
    decreases |props|
  {
    if props != [] {
      BoundIsLonger(outer[props[0] := prefix + props[0]], props[1..], prefix);
    }
  }

  lemma {:induction false} BindingsAreLonger(g: Generator, scope: Scope)
    requires forall n :: |g.prefix(n)| > 1
    ensures Longer(BindingsOf(g, scope))
  {
    match scope
    case Page =>
    case Within(call, caller, number) =>
      BindingsAreLonger(g, caller);
      BoundIsLonger(BindingsOf(g, caller), g.props(NameOfCall(call)), g.prefix(number));
    case Content(of) =>
      BindingsAreLonger(g, of);
  }

  /** An action is copied as it is exactly when no variable of the component occurs in it outside strings. */
  lemma ActionIsLiteralIff(g: Generator, scope: Scope, node: Node)
    requires node.Action? && forall n :: |g.prefix(n)| > 1
    ensures IsSynthetic(CopyOf(g, scope, node)) <==> Uses(node.text, BindingsOf(g, scope), |node.text|)
  {
    BindingsAreLonger(g, scope);
    UnchangedIff(node.text, BindingsOf(g, scope));
  }
}
