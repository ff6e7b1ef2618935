/** What compiling does with the nodes at every depth. */
module ViewDepths {
  import opened Basics
  import opened SourceMap
  import opened ViewNodes
  import opened ViewCompile

  // ---- the output only grows ---------------------------------------------------------------------------

  predicate Grown(out: Output, o: Outcome) {
    o.Done? ==> out.pieces <= o.out.pieces
  }

  lemma {:induction false} CodeGrows(out: Output, code: seq<Line>)
    ensures out.pieces <= PutCode(out, code).pieces
    decreases |code|
  {
    if code != [] {
      CodeGrows(Put(out, Code(code[0].text, code[0].span, code[0].role)), code[1..]);
    }
  }

  lemma EmissionGrows(g: Generator, scope: Scope, node: Node, out: Output)
    ensures Grown(out, CompiledEmission(g, scope, node, out))
  {
    CodeGrows(out, Emit(g, scope, out.counter, node).code);
  }

  /** Compiling never takes back a piece. */
  lemma {:induction false} Grows(g: Generator, scope: Scope, nodes: seq<Node>, depth: nat, out: Output)
    ensures Grown(out, Compiled(g, scope, nodes, depth, out))
    decreases depth, nodes, 2
  {
    if nodes != [] {
      NodeGrows(g, scope, nodes[0], depth, out);
      var o := CompiledNode(g, scope, nodes[0], depth, out);
      if o.Done? {
        Grows(g, scope, nodes[1..], depth, o.out);
      }
    }
  }

  lemma {:induction false} NodeGrows(g: Generator, scope: Scope, node: Node, depth: nat, out: Output)
    ensures Grown(out, CompiledNode(g, scope, node, depth, out))
    decreases depth, node, 1
  {
    if node.Text? || node.Action? || Misplaced(node) {
    } else if Expands(node) {
      ElsewhereGrows(g, scope, node, depth, out);
    } else if node.Leaf? {
      EmissionGrows(g, scope, node, out);
    } else if node.Control? {
      ControlGrows(g, scope, node, depth, out);
    } else {
      ErrorsGrows(g, scope, node, depth, out);
    }
  }

  lemma {:induction false} ElsewhereGrows(g: Generator, scope: Scope, node: Node, depth: nat, out: Output)
    requires Expands(node)
    ensures Grown(out, CompiledElsewhere(g, scope, node, depth, out))
    decreases depth, node, 0
  {
    var e := Lookup(g, scope, out.counter, node);
    if e.Some? && depth > 0 {
      CodeGrows(out, e.value.before.code);
      var start := PutEmission(out, e.value.before);
      Grows(g, e.value.scope, e.value.nodes, depth - 1, start);
      var o := Compiled(g, e.value.scope, e.value.nodes, depth - 1, start);
      if o.Done? {
        CodeGrows(o.out, e.value.after);
      }
    }
  }

  lemma {:induction false} ErrorsGrows(g: Generator, scope: Scope, node: Node, depth: nat, out: Output)
    requires node.Block?
    ensures Grown(out, CompiledErrors(g, scope, node, depth, out))
    decreases depth, node, 0
  {
    EmissionGrows(g, scope, node, out);
    var start := CompiledEmission(g, scope, node, out);
    if start.Done? {
      Grows(g, scope, node.children, depth, start.out);
    }
  }

  lemma {:induction false} ControlGrows(g: Generator, scope: Scope, node: Node, depth: nat, out: Output)
    requires node.Control?
    ensures Grown(out, CompiledControl(g, scope, node, depth, out))
    decreases depth, node, 0
  {
    var start := Put(out, Opening(g, scope, node));
    Grows(g, scope, node.children, depth, start);
    var first := Compiled(g, scope, node.children, depth, start);
    if first.Done? {
      BranchesGrow(g, scope, node.branches, depth, first.out);
      var middle := CompiledBranches(g, scope, node.branches, depth, first.out);
      if middle.Done? {
        AlternateGrows(g, scope, node.span, node.alternate, depth, middle.out);
      }
    }
  }

  lemma {:induction false} BranchesGrow(g: Generator, scope: Scope, branches: seq<Branch>, depth: nat, out: Output)
    ensures Grown(out, CompiledBranches(g, scope, branches, depth, out))
    decreases depth, branches, 0
  {
    if branches != [] {
      var start := Put(out, Branching(g, scope, branches[0]));
      Grows(g, scope, branches[0].nodes, depth, start);
      var o := Compiled(g, scope, branches[0].nodes, depth, start);
      if o.Done? {
        BranchesGrow(g, scope, branches[1..], depth, o.out);
      }
    }
  }

  lemma {:induction false} AlternateGrows(g: Generator, scope: Scope, span: Span, alternate: Alternate, depth: nat, out: Output)
    ensures Grown(out, CompiledAlternate(g, scope, span, alternate, depth, out))
    decreases depth, alternate, 0
  {
    if alternate.Alternate? {
      Grows(g, scope, alternate.nodes, depth, Put(out, Code(g.otherwise, span, Otherwise)));
    }
  }

  // ---- every node is compiled -------------------------------------------------------------------------------

  /** The node is one of these, or inside one of them at any depth; the body of a @push is compiled only where its stack is. */
  predicate Inside(nodes: seq<Node>, x: Node)
    decreases nodes, 1
  {
    nodes != [] && (nodes[0] == x || InsideNode(nodes[0], x) || Inside(nodes[1..], x))
  }

  predicate InsideNode(node: Node, x: Node)
    decreases node, 0
  {
    match node
    case Block(k, _, _, _, _, _, children) => k == Errors && Inside(children, x)
    case Control(_, _, _, _, _, children, branches, alternate) =>
      Inside(children, x) || InsideBranches(branches, x) || (alternate.Alternate? && Inside(alternate.nodes, x))
    case _ => false
  }

  predicate InsideBranches(branches: seq<Branch>, x: Node)
    decreases branches, 0
  {
    branches != [] && (Inside(branches[0].nodes, x) || InsideBranches(branches[1..], x))
  }

  /** The node is compiled in this scope, with all its pieces after those of `out` and within those of `o`. */
  ghost predicate CompiledWithin(g: Generator, scope: Scope, x: Node, depth: nat, out: Output, o: Output) {
    exists before :: CompiledAfter(g, scope, x, depth, out, before, o)
  }

  predicate CompiledAfter(g: Generator, scope: Scope, x: Node, depth: nat, out: Output, before: Output, o: Output) {
    && out.pieces <= before.pieces && CompiledNode(g, scope, x, depth, before).Done?
    && CompiledNode(g, scope, x, depth, before).out.pieces <= o.pieces
  }

  lemma Widen(g: Generator, scope: Scope, x: Node, depth: nat, out: Output, out': Output, o': Output, o: Output)
    requires CompiledWithin(g, scope, x, depth, out', o') && out.pieces <= out'.pieces && o'.pieces <= o.pieces
    ensures CompiledWithin(g, scope, x, depth, out, o)
  {
    var before :| CompiledAfter(g, scope, x, depth, out', before, o');
    assert CompiledAfter(g, scope, x, depth, out, before, o);
  }

  /** Every node at every depth is compiled, in the scope of the nodes around it. */
  lemma {:induction false} EveryDepth(g: Generator, scope: Scope, nodes: seq<Node>, depth: nat, out: Output, x: Node)
    requires Compiled(g, scope, nodes, depth, out).Done? && Inside(nodes, x)
    ensures CompiledWithin(g, scope, x, depth, out, Compiled(g, scope, nodes, depth, out).out)
    decreases nodes, 2
  {
    var o := CompiledNode(g, scope, nodes[0], depth, out).out;
    var end := Compiled(g, scope, nodes, depth, out).out;
    NodeGrows(g, scope, nodes[0], depth, out);
    Grows(g, scope, nodes[1..], depth, o);
    if nodes[0] == x {
      assert CompiledAfter(g, scope, x, depth, out, out, end);
    } else if InsideNode(nodes[0], x) {
      InnerDepth(g, scope, nodes[0], depth, out, x);
      Widen(g, scope, x, depth, out, out, o, end);
    } else {
      EveryDepth(g, scope, nodes[1..], depth, o, x);
      Widen(g, scope, x, depth, out, o, end, end);
    }
  }

  lemma {:induction false} InnerDepth(g: Generator, scope: Scope, node: Node, depth: nat, out: Output, x: Node)
    requires CompiledNode(g, scope, node, depth, out).Done? && InsideNode(node, x)
    ensures CompiledWithin(g, scope, x, depth, out, CompiledNode(g, scope, node, depth, out).out)
    decreases node, 1
  {
    if node.Block? {
      EmissionGrows(g, scope, node, out);
      var start := CompiledEmission(g, scope, node, out).out;
      EveryDepth(g, scope, node.children, depth, start, x);
      Widen(g, scope, x, depth, out, start, Compiled(g, scope, node.children, depth, start).out,
            CompiledNode(g, scope, node, depth, out).out);
    } else {
      ControlDepth(g, scope, node, depth, out, x);
    }
  }

  lemma {:induction false} ControlDepth(g: Generator, scope: Scope, node: Node, depth: nat, out: Output, x: Node)
    requires node.Control? && CompiledControl(g, scope, node, depth, out).Done? && InsideNode(node, x)
    ensures CompiledWithin(g, scope, x, depth, out, CompiledControl(g, scope, node, depth, out).out)
    decreases node, 0
  {
    var end := CompiledControl(g, scope, node, depth, out).out;
    var start := Put(out, Opening(g, scope, node));
    var first := Compiled(g, scope, node.children, depth, start).out;
    var middle := CompiledBranches(g, scope, node.branches, depth, first).out;
    var last := CompiledAlternate(g, scope, node.span, node.alternate, depth, middle).out;
    Grows(g, scope, node.children, depth, start);
    BranchesGrow(g, scope, node.branches, depth, first);
    AlternateGrows(g, scope, node.span, node.alternate, depth, middle);
    if Inside(node.children, x) {
      EveryDepth(g, scope, node.children, depth, start, x);
      Widen(g, scope, x, depth, out, start, first, end);
    } else if InsideBranches(node.branches, x) {
      BranchDepth(g, scope, node.branches, depth, first, x);
      Widen(g, scope, x, depth, out, first, middle, end);
    } else {
      var start := Put(middle, Code(g.otherwise, node.span, Otherwise));
      EveryDepth(g, scope, node.alternate.nodes, depth, start, x);
      Widen(g, scope, x, depth, out, start, last, end);
    }
  }

  lemma {:induction false} BranchDepth(g: Generator, scope: Scope, branches: seq<Branch>, depth: nat, out: Output, x: Node)
    requires CompiledBranches(g, scope, branches, depth, out).Done? && InsideBranches(branches, x)
    ensures CompiledWithin(g, scope, x, depth, out, CompiledBranches(g, scope, branches, depth, out).out)
    decreases branches, 0
  {
    var start := Put(out, Branching(g, scope, branches[0]));
    var o := Compiled(g, scope, branches[0].nodes, depth, start).out;
    var end := CompiledBranches(g, scope, branches, depth, out).out;
    Grows(g, scope, branches[0].nodes, depth, start);
    BranchesGrow(g, scope, branches[1..], depth, o);
    if Inside(branches[0].nodes, x) {
      EveryDepth(g, scope, branches[0].nodes, depth, start, x);
      Widen(g, scope, x, depth, out, start, o, end);
    } else {
      BranchDepth(g, scope, branches[1..], depth, o, x);
      Widen(g, scope, x, depth, out, o, end, end);
    }
  }

  /** The mapping is the one of a text or an action: it points at where its span starts, holds its text, and is literal
      exactly where that text is unchanged. */
  predicate MapsCopy(g: Generator, scope: Scope, x: Node, generated: Bytes, m: Mapping)
    requires x.Text? || x.Action?
  {
    var p := CopyOf(g, scope, x);
    && m.start <= m.end <= |generated| && generated[m.start..m.end] == p.text
    && m.sourceStart == x.span.start && m.path == x.span.path && m.place == x.span.place && m.synthetic == p.synthetic
  }

  lemma {:induction false} PieceIsMapped(ps: seq<Piece>, i: nat) returns (m: Mapping)
    requires i < |ps| && ps[i].text != []
    ensures m in Maps(ps) && m.start <= m.end <= |Texts(ps)| && Texts(ps)[m.start..m.end] == ps[i].text
    ensures m.sourceStart == ps[i].span.start && m.path == ps[i].span.path && m.place == ps[i].span.place
    ensures m.synthetic == IsSynthetic(ps[i])
    decreases |ps|
  {
    var front := ps[..|ps| - 1];
    if i < |front| {
      m := PieceIsMapped(front, i);
      assert Texts(ps)[m.start..m.end] == Texts(front)[m.start..m.end];
    } else {
      m := Maps(ps)[|Maps(front)|];
    }
  }

  /** So every text and every action has its piece, and the piece its mapping. */
  lemma CopiedAtEveryDepth(g: Generator, scope: Scope, nodes: seq<Node>, depth: nat, out: Output, x: Node)
    returns (m: Option<Mapping>)
    requires Compiled(g, scope, nodes, depth, out).Done? && Inside(nodes, x) && (x.Text? || x.Action?)
    ensures CopyOf(g, scope, x) in Compiled(g, scope, nodes, depth, out).out.pieces
    ensures m.None? <==> CopyOf(g, scope, x).text == []
    ensures m.Some? ==> m.value in Maps(Compiled(g, scope, nodes, depth, out).out.pieces)
    ensures m.Some? ==> MapsCopy(g, scope, x, Texts(Compiled(g, scope, nodes, depth, out).out.pieces), m.value)
  {
    EveryDepth(g, scope, nodes, depth, out, x);
    var end := Compiled(g, scope, nodes, depth, out).out;
    var before :| CompiledAfter(g, scope, x, depth, out, before, end);
    assert end.pieces[|before.pieces|] == CopyOf(g, scope, x);
    if CopyOf(g, scope, x).text == [] {
      m := None;
    } else {
      var mapping := PieceIsMapped(end.pieces, |before.pieces|);
      m := Some(mapping);
    }
  }

  /** And every component call, slot and stack has its nodes compiled in their own scope, one level down. */
  lemma ExpandedAtEveryDepth(g: Generator, scope: Scope, nodes: seq<Node>, depth: nat, out: Output, x: Node)
    returns (e: Expansion, start: Output)
    requires Compiled(g, scope, nodes, depth, out).Done? && Inside(nodes, x) && Expands(x)
    ensures depth > 0 && out.pieces <= start.pieces && Compiled(g, e.scope, e.nodes, depth - 1, start).Done?
    ensures Compiled(g, e.scope, e.nodes, depth - 1, start).out.pieces <= Compiled(g, scope, nodes, depth, out).out.pieces
    ensures exists n :: Lookup(g, scope, n, x) == Some(e)
  {
    EveryDepth(g, scope, nodes, depth, out, x);
    var end := Compiled(g, scope, nodes, depth, out).out;
    var before :| CompiledAfter(g, scope, x, depth, out, before, end);
    assert CompiledElsewhere(g, scope, x, depth, before).Done?;
    e := Lookup(g, scope, before.counter, x).value;
    start := PutEmission(before, e.before);
    CodeGrows(before, e.before.code);
    CodeGrows(Compiled(g, e.scope, e.nodes, depth - 1, start).out, e.after);
  }

  // ---- texts and actions come out once each, in order ----------------------------------------------------------

  /** The copies among the pieces. */
  function Copies(ps: seq<Piece>): seq<Piece> {
    if ps == [] then []
    else Copies(ps[..|ps| - 1]) + if ps[|ps| - 1].Copy? then [ps[|ps| - 1]] else []
  }

  lemma CopiesPut(out: Output, p: Piece)
    ensures Copies(Put(out, p).pieces) == Copies(out.pieces) + if p.Copy? then [p] else []
  {
    assert Put(out, p).pieces[..|out.pieces|] == out.pieces;
  }

  lemma {:induction false} CopiesPutCode(out: Output, code: seq<Line>)
    ensures Copies(PutCode(out, code).pieces) == Copies(out.pieces)
    decreases |code|
  {
    if code != [] {
      var p := Code(code[0].text, code[0].span, code[0].role);
      CopiesPut(out, p);
      CopiesPutCode(Put(out, p), code[1..]);
    }
  }

  lemma CopiesEmission(g: Generator, scope: Scope, node: Node, out: Output)
    requires CompiledEmission(g, scope, node, out).Done?
    ensures Copies(CompiledEmission(g, scope, node, out).out.pieces) == Copies(out.pieces)
  {
    CopiesPutCode(out, Emit(g, scope, out.counter, node).code);
  }

  /** The pieces of the texts and actions at all depths, as they stand in the source; a component call, slot or stack has
      those of the nodes it stands for. */
  function Leaves(g: Generator, scope: Scope, nodes: seq<Node>, depth: nat, out: Output): seq<Piece>
    requires Compiled(g, scope, nodes, depth, out).Done?
    decreases depth, nodes, 2
  {
    if nodes == [] then []
    else
      LeavesOf(g, scope, nodes[0], depth, out) +
      Leaves(g, scope, nodes[1..], depth, CompiledNode(g, scope, nodes[0], depth, out).out)
  }

  function LeavesOf(g: Generator, scope: Scope, node: Node, depth: nat, out: Output): seq<Piece>
    requires CompiledNode(g, scope, node, depth, out).Done?
    decreases depth, node, 1
  {
    if node.Text? || node.Action? then [CopyOf(g, scope, node)]
    else if Expands(node) then
      assert CompiledElsewhere(g, scope, node, depth, out).Done?;
      var e := Lookup(g, scope, out.counter, node).value;
      Leaves(g, e.scope, e.nodes, depth - 1, PutEmission(out, e.before))
    else if node.Control? then ControlLeaves(g, scope, node, depth, out)
    else if node.Block? && node.kind == Errors then
      assert CompiledErrors(g, scope, node, depth, out).Done?;
      Leaves(g, scope, node.children, depth, CompiledEmission(g, scope, node, out).out)
    else []
  }

  function ControlLeaves(g: Generator, scope: Scope, node: Node, depth: nat, out: Output): seq<Piece>
    requires node.Control? && CompiledControl(g, scope, node, depth, out).Done?
    decreases depth, node, 0
  {
    var start := Put(out, Opening(g, scope, node));
    var first := Compiled(g, scope, node.children, depth, start).out;
    assert CompiledRest(g, scope, node, depth, first).Done?;
    var middle := CompiledBranches(g, scope, node.branches, depth, first).out;
    Leaves(g, scope, node.children, depth, start) + BranchLeaves(g, scope, node.branches, depth, first) +
    AlternateLeaves(g, scope, node.span, node.alternate, depth, middle)
  }

  function BranchLeaves(g: Generator, scope: Scope, branches: seq<Branch>, depth: nat, out: Output): seq<Piece>
    requires CompiledBranches(g, scope, branches, depth, out).Done?
    decreases depth, branches, 0
  {
    if branches == [] then []
    else
      var start := Put(out, Branching(g, scope, branches[0]));
      Leaves(g, scope, branches[0].nodes, depth, start) +
      BranchLeaves(g, scope, branches[1..], depth, Compiled(g, scope, branches[0].nodes, depth, start).out)
  }

  function AlternateLeaves(g: Generator, scope: Scope, span: Span, alternate: Alternate, depth: nat, out: Output): seq<Piece>
    requires CompiledAlternate(g, scope, span, alternate, depth, out).Done?
    decreases depth, alternate, 0
  {
    if alternate.NoAlternate? || alternate.nodes == [] then []
    else Leaves(g, scope, alternate.nodes, depth, Put(out, Code(g.otherwise, span, Otherwise)))
  }

  /** The copies of `o` are those of `out` and then these. */
  predicate Adds(out: Output, added: seq<Piece>, o: Output) {
    Copies(o.pieces) == Copies(out.pieces) + added
  }

  lemma AddsJoin(out: Output, a: seq<Piece>, o: Output, b: seq<Piece>, end: Output)
    requires Adds(out, a, o) && Adds(o, b, end)
    ensures Adds(out, a + b, end)
  {
    assert Copies(out.pieces) + (a + b) == Copies(out.pieces) + a + b;
  }

  lemma CodeAdds(out: Output, p: Piece, a: seq<Piece>, o: Output)
    requires p.Code?
    ensures Adds(Put(out, p), a, o) <==> Adds(out, a, o)
    ensures Adds(o, a, Put(out, p)) <==> Adds(o, a, out)
  {
    CopiesPut(out, p);
  }

  /** The texts and actions come out once each and in the order of the source. */
  lemma {:induction false} InOrder(g: Generator, scope: Scope, nodes: seq<Node>, depth: nat, out: Output)
    requires Compiled(g, scope, nodes, depth, out).Done?
    ensures Adds(out, Leaves(g, scope, nodes, depth, out), Compiled(g, scope, nodes, depth, out).out)
    decreases depth, nodes, 2
  {
    if nodes != [] {
      var o := CompiledNode(g, scope, nodes[0], depth, out).out;
      NodeInOrder(g, scope, nodes[0], depth, out);
      InOrder(g, scope, nodes[1..], depth, o);
      AddsJoin(out, LeavesOf(g, scope, nodes[0], depth, out), o, Leaves(g, scope, nodes[1..], depth, o),
               Compiled(g, scope, nodes, depth, out).out);
    }
  }

  lemma {:induction false} NodeInOrder(g: Generator, scope: Scope, node: Node, depth: nat, out: Output)
    requires CompiledNode(g, scope, node, depth, out).Done?
    ensures Adds(out, LeavesOf(g, scope, node, depth, out), CompiledNode(g, scope, node, depth, out).out)
    decreases depth, node, 1
  {
    if node.Text? || node.Action? {
      CopiesPut(out, CopyOf(g, scope, node));
    } else if Expands(node) {
      ElsewhereInOrder(g, scope, node, depth, out);
    } else if node.Leaf? {
      CopiesEmission(g, scope, node, out);
    } else if node.Control? {
      ControlInOrder(g, scope, node, depth, out);
    } else if node.kind != Push {
      ErrorsInOrder(g, scope, node, depth, out);
    }
  }

  lemma {:induction false} ElsewhereInOrder(g: Generator, scope: Scope, node: Node, depth: nat, out: Output)
    requires Expands(node) && CompiledElsewhere(g, scope, node, depth, out).Done?
    ensures var e := Lookup(g, scope, out.counter, node).value;
      Adds(out, Leaves(g, e.scope, e.nodes, depth - 1, PutEmission(out, e.before)), CompiledElsewhere(g, scope, node, depth, out).out)
    decreases depth, node, 0
  {
    var e := Lookup(g, scope, out.counter, node).value;
    var start := PutEmission(out, e.before);
    CopiesPutCode(out, e.before.code);
    InOrder(g, e.scope, e.nodes, depth - 1, start);
    CopiesPutCode(Compiled(g, e.scope, e.nodes, depth - 1, start).out, e.after);
  }

  lemma {:induction false} ErrorsInOrder(g: Generator, scope: Scope, node: Node, depth: nat, out: Output)
    requires node.Block? && CompiledErrors(g, scope, node, depth, out).Done?
    ensures Adds(out, Leaves(g, scope, node.children, depth, CompiledEmission(g, scope, node, out).out),
                 CompiledErrors(g, scope, node, depth, out).out)
    decreases depth, node, 0
  {
    CopiesEmission(g, scope, node, out);
    var start := CompiledEmission(g, scope, node, out).out;
    InOrder(g, scope, node.children, depth, start);
    CopiesPut(Compiled(g, scope, node.children, depth, start).out, Code(g.ending, node.span, Ends));
  }

  lemma {:induction false} ControlInOrder(g: Generator, scope: Scope, node: Node, depth: nat, out: Output)
    requires node.Control? && CompiledControl(g, scope, node, depth, out).Done?
    ensures Adds(out, ControlLeaves(g, scope, node, depth, out), CompiledControl(g, scope, node, depth, out).out)
    decreases depth, node, 0
  {
    var opening := Opening(g, scope, node);
    var start := Put(out, opening);
    var first := Compiled(g, scope, node.children, depth, start).out;
    var middle := CompiledBranches(g, scope, node.branches, depth, first).out;
    var last := CompiledAlternate(g, scope, node.span, node.alternate, depth, middle).out;
    var children := Leaves(g, scope, node.children, depth, start);
    var branches := BranchLeaves(g, scope, node.branches, depth, first);
    InOrder(g, scope, node.children, depth, start);
    CodeAdds(out, opening, children, first);
    BranchesInOrder(g, scope, node.branches, depth, first);
    AddsJoin(out, children, first, branches, middle);
    AlternateInOrder(g, scope, node.span, node.alternate, depth, middle);
    AddsJoin(out, children + branches, middle, AlternateLeaves(g, scope, node.span, node.alternate, depth, middle), last);
    CodeAdds(last, Code(g.ending, node.span, Ends), ControlLeaves(g, scope, node, depth, out), out);
  }

  lemma {:induction false} AlternateInOrder(g: Generator, scope: Scope, span: Span, alternate: Alternate, depth: nat, out: Output)
    requires CompiledAlternate(g, scope, span, alternate, depth, out).Done?
    ensures Adds(out, AlternateLeaves(g, scope, span, alternate, depth, out),
                 CompiledAlternate(g, scope, span, alternate, depth, out).out)
    decreases depth, alternate, 0
  {
    if alternate.Alternate? && alternate.nodes != [] {
      var p := Code(g.otherwise, span, Otherwise);
      InOrder(g, scope, alternate.nodes, depth, Put(out, p));
      CopiesPut(out, p);
    }
  }

  lemma {:induction false} BranchesInOrder(g: Generator, scope: Scope, branches: seq<Branch>, depth: nat, out: Output)
    requires CompiledBranches(g, scope, branches, depth, out).Done?
    ensures Adds(out, BranchLeaves(g, scope, branches, depth, out), CompiledBranches(g, scope, branches, depth, out).out)
    decreases depth, branches, 0
  {
    if branches != [] {
      var p := Branching(g, scope, branches[0]);
      var start := Put(out, p);
      var o := Compiled(g, scope, branches[0].nodes, depth, start).out;
      InOrder(g, scope, branches[0].nodes, depth, start);
      CodeAdds(out, p, Leaves(g, scope, branches[0].nodes, depth, start), o);
      BranchesInOrder(g, scope, branches[1..], depth, o);
      AddsJoin(out, Leaves(g, scope, branches[0].nodes, depth, start), o, BranchLeaves(g, scope, branches[1..], depth, o),
               CompiledBranches(g, scope, branches, depth, out).out);
    }
  }

  /** The pieces of the texts and actions of a tree in which nothing stands for something else. */
  function PlainLeaves(g: Generator, scope: Scope, nodes: seq<Node>): seq<Piece>
    decreases nodes, 1
  {
    if nodes == [] then [] else PlainLeavesOf(g, scope, nodes[0]) + PlainLeaves(g, scope, nodes[1..])
  }

  function PlainLeavesOf(g: Generator, scope: Scope, node: Node): seq<Piece>
    decreases node, 0
  {
    match node
    case Text(_, _) => [CopyOf(g, scope, node)]
    case Action(_, _) => [CopyOf(g, scope, node)]
    case Leaf(_, _, _, _) => []
    case Block(k, _, _, _, _, _, children) => if k == Errors then PlainLeaves(g, scope, children) else []
    case Control(_, _, _, _, _, children, branches, alternate) =>
      PlainLeaves(g, scope, children) + PlainBranchLeaves(g, scope, branches) +
      if alternate.Alternate? then PlainLeaves(g, scope, alternate.nodes) else []
  }

  function PlainBranchLeaves(g: Generator, scope: Scope, branches: seq<Branch>): seq<Piece>
    decreases branches, 0
  {
    if branches == [] then [] else PlainLeaves(g, scope, branches[0].nodes) + PlainBranchLeaves(g, scope, branches[1..])
  }

  /** No component call, slot or stack at any depth. */
  predicate Closed(nodes: seq<Node>)
    decreases nodes, 1
  {
    nodes == [] || (ClosedNode(nodes[0]) && Closed(nodes[1..]))
  }

  predicate ClosedNode(node: Node)
    decreases node, 0
  {
    && !Expands(node)
    && match node
       case Block(_, _, _, _, _, _, children) => Closed(children)
       case Control(_, _, _, _, _, children, branches, alternate) =>
         Closed(children) && ClosedBranches(branches) && (alternate.Alternate? ==> Closed(alternate.nodes))
       case _ => true
  }

  predicate ClosedBranches(branches: seq<Branch>)
    decreases branches, 0
  {
    branches == [] || (Closed(branches[0].nodes) && ClosedBranches(branches[1..]))
  }

  /** There the texts and actions are those of the tree itself, however it is compiled. */
  lemma {:induction false} ClosedLeaves(g: Generator, scope: Scope, nodes: seq<Node>, depth: nat, out: Output)
    requires Compiled(g, scope, nodes, depth, out).Done? && Closed(nodes)
    ensures Leaves(g, scope, nodes, depth, out) == PlainLeaves(g, scope, nodes)
    decreases nodes, 2
  {
    if nodes != [] {
      ClosedLeavesOf(g, scope, nodes[0], depth, out);
      ClosedLeaves(g, scope, nodes[1..], depth, CompiledNode(g, scope, nodes[0], depth, out).out);
    }
  }

  lemma {:induction false} ClosedLeavesOf(g: Generator, scope: Scope, node: Node, depth: nat, out: Output)
    requires CompiledNode(g, scope, node, depth, out).Done? && ClosedNode(node)
    ensures LeavesOf(g, scope, node, depth, out) == PlainLeavesOf(g, scope, node)
    decreases node, 1
  {
    if node.Block? && node.kind == Errors {
      assert CompiledErrors(g, scope, node, depth, out).Done?;
      ClosedLeaves(g, scope, node.children, depth, CompiledEmission(g, scope, node, out).out);
    } else if node.Control? {
      ClosedControlLeaves(g, scope, node, depth, out);
    }
  }

  lemma {:induction false} ClosedControlLeaves(g: Generator, scope: Scope, node: Node, depth: nat, out: Output)
    requires node.Control? && CompiledControl(g, scope, node, depth, out).Done? && ClosedNode(node)
    ensures ControlLeaves(g, scope, node, depth, out) == PlainLeavesOf(g, scope, node)
    decreases node, 0
  {
    var start := Put(out, Opening(g, scope, node));
    var first := Compiled(g, scope, node.children, depth, start).out;
    var middle := CompiledBranches(g, scope, node.branches, depth, first).out;
    ClosedLeaves(g, scope, node.children, depth, start);
    ClosedBranchLeaves(g, scope, node.branches, depth, first);
    assert CompiledAlternate(g, scope, node.span, node.alternate, depth, middle).Done?;
    if node.alternate.Alternate? && node.alternate.nodes != [] {
      ClosedLeaves(g, scope, node.alternate.nodes, depth, Put(middle, Code(g.otherwise, node.span, Otherwise)));
    }
  }

  lemma {:induction false} ClosedBranchLeaves(g: Generator, scope: Scope, branches: seq<Branch>, depth: nat, out: Output)
    requires CompiledBranches(g, scope, branches, depth, out).Done? && ClosedBranches(branches)
    ensures BranchLeaves(g, scope, branches, depth, out) == PlainBranchLeaves(g, scope, branches)
    decreases branches, 0
  {
    if branches != [] {
      var start := Put(out, Branching(g, scope, branches[0]));
      ClosedLeaves(g, scope, branches[0].nodes, depth, start);
      ClosedBranchLeaves(g, scope, branches[1..], depth, Compiled(g, scope, branches[0].nodes, depth, start).out);
    }
  }

  // ---- the bound on expansions ----------------------------------------------------------------------------------

  /** Once the bound is large enough, a larger one changes nothing. */
  lemma {:induction false} DeeperIsSame(g: Generator, scope: Scope, nodes: seq<Node>, depth: nat, deeper: nat, out: Output)
    requires !Compiled(g, scope, nodes, depth, out).TooDeep? && depth <= deeper
    ensures Compiled(g, scope, nodes, deeper, out) == Compiled(g, scope, nodes, depth, out)
    decreases depth, nodes, 2
  {
    if nodes != [] {
      NodeDeeperIsSame(g, scope, nodes[0], depth, deeper, out);
      var o := CompiledNode(g, scope, nodes[0], depth, out);
      if o.Done? {
        DeeperIsSame(g, scope, nodes[1..], depth, deeper, o.out);
      }
    }
  }

  lemma {:induction false} NodeDeeperIsSame(g: Generator, scope: Scope, node: Node, depth: nat, deeper: nat, out: Output)
    requires !CompiledNode(g, scope, node, depth, out).TooDeep? && depth <= deeper
    ensures CompiledNode(g, scope, node, deeper, out) == CompiledNode(g, scope, node, depth, out)
    decreases depth, node, 1
  {
    if node.Text? || node.Action? || Misplaced(node) {
    } else if Expands(node) {
      ElsewhereDeeperIsSame(g, scope, node, depth, deeper, out);
    } else if node.Control? {
      ControlDeeperIsSame(g, scope, node, depth, deeper, out);
    } else if node.Block? && node.kind != Push {
      ErrorsDeeperIsSame(g, scope, node, depth, deeper, out);
    }
  }

  lemma {:induction false} ElsewhereDeeperIsSame(g: Generator, scope: Scope, node: Node, depth: nat, deeper: nat, out: Output)
    requires Expands(node) && !CompiledElsewhere(g, scope, node, depth, out).TooDeep? && depth <= deeper
    ensures CompiledElsewhere(g, scope, node, deeper, out) == CompiledElsewhere(g, scope, node, depth, out)
    decreases depth, node, 0
  {
    var e := Lookup(g, scope, out.counter, node);
    if e.Some? {
      DeeperIsSame(g, e.value.scope, e.value.nodes, depth - 1, deeper - 1, PutEmission(out, e.value.before));
    }
  }

  lemma {:induction false} ErrorsDeeperIsSame(g: Generator, scope: Scope, node: Node, depth: nat, deeper: nat, out: Output)
    requires node.Block? && !CompiledErrors(g, scope, node, depth, out).TooDeep? && depth <= deeper
    ensures CompiledErrors(g, scope, node, deeper, out) == CompiledErrors(g, scope, node, depth, out)
    decreases depth, node, 0
  {
    var start := CompiledEmission(g, scope, node, out);
    if start.Done? {
      DeeperIsSame(g, scope, node.children, depth, deeper, start.out);
    }
  }

  lemma {:induction false} ControlDeeperIsSame(g: Generator, scope: Scope, node: Node, depth: nat, deeper: nat, out: Output)
    requires node.Control? && !CompiledControl(g, scope, node, depth, out).TooDeep? && depth <= deeper
    ensures CompiledControl(g, scope, node, deeper, out) == CompiledControl(g, scope, node, depth, out)
    decreases depth, node, 0, 1
  {
    var start := Put(out, Opening(g, scope, node));
    DeeperIsSame(g, scope, node.children, depth, deeper, start);
    var first := Compiled(g, scope, node.children, depth, start);
    if first.Done? {
      RestDeeperIsSame(g, scope, node, depth, deeper, first.out);
    }
  }

  lemma {:induction false} RestDeeperIsSame(g: Generator, scope: Scope, node: Node, depth: nat, deeper: nat, out: Output)
    requires node.Control? && !CompiledRest(g, scope, node, depth, out).TooDeep? && depth <= deeper
    ensures CompiledRest(g, scope, node, deeper, out) == CompiledRest(g, scope, node, depth, out)
    decreases depth, node, 0, 0
  {
    BranchesDeeperIsSame(g, scope, node.branches, depth, deeper, out);
    var middle := CompiledBranches(g, scope, node.branches, depth, out);
    if middle.Done? {
      AlternateDeeperIsSame(g, scope, node.span, node.alternate, depth, deeper, middle.out);
    }
  }

  lemma {:induction false} AlternateDeeperIsSame(g: Generator, scope: Scope, span: Span, alternate: Alternate, depth: nat, deeper: nat,
      out: Output)
    requires !CompiledAlternate(g, scope, span, alternate, depth, out).TooDeep? && depth <= deeper
    ensures CompiledAlternate(g, scope, span, alternate, deeper, out) == CompiledAlternate(g, scope, span, alternate, depth, out)
    decreases depth, alternate, 0
  {
    if alternate.Alternate? && alternate.nodes != [] {
      DeeperIsSame(g, scope, alternate.nodes, depth, deeper, Put(out, Code(g.otherwise, span, Otherwise)));
    }
  }

  lemma {:induction false} BranchesDeeperIsSame(g: Generator, scope: Scope, branches: seq<Branch>, depth: nat, deeper: nat, out: Output)
    requires !CompiledBranches(g, scope, branches, depth, out).TooDeep? && depth <= deeper
    ensures CompiledBranches(g, scope, branches, deeper, out) == CompiledBranches(g, scope, branches, depth, out)
    decreases depth, branches, 0
  {
    if branches != [] {
      var start := Put(out, Branching(g, scope, branches[0]));
      DeeperIsSame(g, scope, branches[0].nodes, depth, deeper, start);
      var o := Compiled(g, scope, branches[0].nodes, depth, start);
      if o.Done? {
        BranchesDeeperIsSame(g, scope, branches[1..], depth, deeper, o.out);
      }
    }
  }
}
