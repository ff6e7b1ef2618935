/** The numbers of components: every component that is entered, in any view, gets one of its own. */
module ViewNumbers {
  import opened SourceMap
  import opened ViewNodes
  import opened ViewCompile
  import Layouts
  import opened ViewSite

  /** The code of directives never goes back to an earlier number. */
  ghost predicate GoesOn(g: Generator) {
    forall scope, n: nat, node :: n <= g.emit(scope, n, node).counter
  }

  predicate IsEntry(p: Piece) {
    p.Code? && p.role.Enters?
  }

  /** The numbers of the components entered are above `low` and up to `high`, and rise. */
  predicate Numbers(ps: seq<Piece>, low: nat, high: nat) {
    && low <= high
    && (forall i :: 0 <= i < |ps| && IsEntry(ps[i]) ==> low < ps[i].role.number <= high)
    && (forall i, j :: 0 <= i < j < |ps| && IsEntry(ps[i]) && IsEntry(ps[j]) ==> ps[i].role.number < ps[j].role.number)
  }

  lemma NumbersJoin(a: seq<Piece>, b: seq<Piece>, low: nat, middle: nat, high: nat)
    requires Numbers(a, low, middle) && Numbers(b, middle, high)
    ensures Numbers(a + b, low, high)
  {
    var c := a + b;
    forall i | 0 <= i < |c| && IsEntry(c[i])
      ensures low < c[i].role.number <= high
      ensures i < |a| ==> c[i].role.number <= middle
      ensures i >= |a| ==> c[i].role.number > middle
    {
      assert i < |a| ==> c[i] == a[i];
      assert i >= |a| ==> c[i] == b[i - |a|];
    }
    forall i, j | 0 <= i < j < |c| && IsEntry(c[i]) && IsEntry(c[j])
      ensures c[i].role.number < c[j].role.number
    {
      if j < |a| {
        assert c[i] == a[i] && c[j] == a[j];
      } else if i >= |a| {
        assert c[i] == b[i - |a|] && c[j] == b[j - |a|];
      }
    }
  }

  /** What is added is numbered from the counter on, and the counter goes on behind that. */
  predicate Adds(out: Output, o: Output) {
    out.pieces <= o.pieces && Numbers(o.pieces[|out.pieces|..], out.counter, o.counter)
  }

  predicate Added(out: Output, o: Outcome) {
    o.Done? ==> Adds(out, o.out)
  }

  lemma AddsJoin(a: Output, b: Output, c: Output)
    requires Adds(a, b) && Adds(b, c)
    ensures Adds(a, c)
  {
    assert c.pieces[|a.pieces|..] == b.pieces[|a.pieces|..] + c.pieces[|b.pieces|..];
    NumbersJoin(b.pieces[|a.pieces|..], c.pieces[|b.pieces|..], a.counter, b.counter, c.counter);
  }

  lemma PutAdds(out: Output, p: Piece, counter: nat)
    requires if IsEntry(p) then out.counter < p.role.number == counter else out.counter <= counter
    ensures Adds(out, Put(out, p).(counter := counter))
  {
    assert Put(out, p).pieces[|out.pieces|..] == [p];
  }

  lemma {:induction false} CodeAdds(out: Output, code: seq<Line>)
    requires forall i :: 0 <= i < |code| ==> !code[i].role.Enters?
    ensures Adds(out, PutCode(out, code))
    decreases |code|
  {
    if code != [] {
      var p := Code(code[0].text, code[0].span, code[0].role);
      PutAdds(out, p, out.counter);
      CodeAdds(Put(out, p), code[1..]);
      AddsJoin(out, Put(out, p), PutCode(out, code));
    }
  }

  lemma {:induction false} CounterFirst(out: Output, code: seq<Line>, counter: nat)
    ensures PutCode(out, code).(counter := counter) == PutCode(out.(counter := counter), code)
    decreases |code|
  {
    if code != [] {
      CounterFirst(Put(out, Code(code[0].text, code[0].span, code[0].role)), code[1..], counter);
    }
  }

  lemma EmissionAdds(g: Generator, scope: Scope, node: Node, out: Output)
    requires GoesOn(g)
    ensures Added(out, CompiledEmission(g, scope, node, out))
  {
    var e := Emit(g, scope, out.counter, node);
    var raised := out.(counter := e.counter);
    CounterFirst(out, e.code, e.counter);
    CodeAdds(raised, e.code);
    assert Adds(out, raised);
    AddsJoin(out, raised, PutCode(raised, e.code));
  }

  /** What is put before a component's definition. */
  lemma EntryAdds(g: Generator, scope: Scope, node: Node, out: Output)
    requires Expands(node) && node.kind == Component && Lookup(g, scope, out.counter, node).Some?
    ensures Adds(out, PutEmission(out, Lookup(g, scope, out.counter, node).value.before))
  {
    var before := Lookup(g, scope, out.counter, node).value.before;
    var entry := Code(g.entering, node.span, Enters(node.name, out.counter + 1));
    var code := Plainly(g.enter(scope, out.counter + 1, node));
    var entered := Put(out, entry).(counter := out.counter + 1);
    PutAdds(out, entry, out.counter + 1);
    assert before.code[1..] == code;
    CounterFirst(Put(out, entry), code, out.counter + 1);
    CodeAdds(entered, code);
    AddsJoin(out, entered, PutCode(entered, code));
  }

  lemma {:induction false} CompilingAdds(g: Generator, scope: Scope, nodes: seq<Node>, depth: nat, out: Output)
    requires GoesOn(g)
    ensures Added(out, Compiled(g, scope, nodes, depth, out))
    decreases depth, nodes, 2
  {
    if nodes != [] {
      NodeAdds(g, scope, nodes[0], depth, out);
      var o := CompiledNode(g, scope, nodes[0], depth, out);
      if o.Done? {
        CompilingAdds(g, scope, nodes[1..], depth, o.out);
        JoinLast(out, o.out, Compiled(g, scope, nodes[1..], depth, o.out));
      }
    }
  }

  lemma JoinLast(a: Output, b: Output, o: Outcome)
    requires Adds(a, b) && Added(b, o)
    ensures Added(a, o)
  {
    if o.Done? {
      AddsJoin(a, b, o.out);
    }
  }

  lemma {:induction false} NodeAdds(g: Generator, scope: Scope, node: Node, depth: nat, out: Output)
    requires GoesOn(g)
    ensures Added(out, CompiledNode(g, scope, node, depth, out))
    decreases depth, node, 1
  {
    if node.Text? || node.Action? {
      PutAdds(out, CopyOf(g, scope, node), out.counter);
    } else if !Misplaced(node) {
      if Expands(node) {
        ElsewhereAdds(g, scope, node, depth, out);
      } else if node.Leaf? {
        EmissionAdds(g, scope, node, out);
      } else if node.Control? {
        ControlAdds(g, scope, node, depth, out);
      } else {
        ErrorsAdds(g, scope, node, depth, out);
      }
    }
  }

  lemma {:induction false} ElsewhereAdds(g: Generator, scope: Scope, node: Node, depth: nat, out: Output)
    requires GoesOn(g) && Expands(node)
    ensures Added(out, CompiledElsewhere(g, scope, node, depth, out))
    decreases depth, node, 0
  {
    var e := Lookup(g, scope, out.counter, node);
    if e.Some? && depth > 0 {
      var start := PutEmission(out, e.value.before);
      if node.kind == Component {
        EntryAdds(g, scope, node, out);
      }
      CompilingAdds(g, e.value.scope, e.value.nodes, depth - 1, start);
      var o := Compiled(g, e.value.scope, e.value.nodes, depth - 1, start);
      JoinLast(out, start, o);
      if o.Done? {
        CodeAdds(o.out, e.value.after);
        AddsJoin(out, o.out, PutCode(o.out, e.value.after));
      }
    }
  }

  lemma {:induction false} ErrorsAdds(g: Generator, scope: Scope, node: Node, depth: nat, out: Output)
    requires GoesOn(g) && node.Block?
    ensures Added(out, CompiledErrors(g, scope, node, depth, out))
    decreases depth, node, 0
  {
    EmissionAdds(g, scope, node, out);
    var start := CompiledEmission(g, scope, node, out);
    if start.Done? {
      CompilingAdds(g, scope, node.children, depth, start.out);
      var o := Compiled(g, scope, node.children, depth, start.out);
      JoinLast(out, start.out, o);
      EndAdds(g, node, out, o);
    }
  }

  lemma EndAdds(g: Generator, node: Node, out: Output, o: Outcome)
    requires Added(out, o)
    ensures o.Done? ==> Adds(out, Put(o.out, Code(g.ending, node.span, Ends)))
  {
    if o.Done? {
      PutAdds(o.out, Code(g.ending, node.span, Ends), o.out.counter);
      AddsJoin(out, o.out, Put(o.out, Code(g.ending, node.span, Ends)));
    }
  }

  lemma {:induction false} ControlAdds(g: Generator, scope: Scope, node: Node, depth: nat, out: Output)
    requires GoesOn(g) && node.Control?
    ensures Added(out, CompiledControl(g, scope, node, depth, out))
    decreases depth, node, 0, 1
  {
    var start := Put(out, Opening(g, scope, node));
    PutAdds(out, Opening(g, scope, node), out.counter);
    CompilingAdds(g, scope, node.children, depth, start);
    var first := Compiled(g, scope, node.children, depth, start);
    JoinLast(out, start, first);
    if first.Done? {
      RestAdds(g, scope, node, depth, first.out);
      JoinLast(out, first.out, CompiledRest(g, scope, node, depth, first.out));
    }
  }

  lemma {:induction false} RestAdds(g: Generator, scope: Scope, node: Node, depth: nat, out: Output)
    requires GoesOn(g) && node.Control?
    ensures Added(out, CompiledRest(g, scope, node, depth, out))
    decreases depth, node, 0, 0
  {
    BranchesAdd(g, scope, node.branches, depth, out);
    var middle := CompiledBranches(g, scope, node.branches, depth, out);
    if middle.Done? {
      AlternateAdds(g, scope, node.span, node.alternate, depth, middle.out);
      var last := CompiledAlternate(g, scope, node.span, node.alternate, depth, middle.out);
      JoinLast(out, middle.out, last);
      EndAdds(g, node, out, last);
    }
  }

  lemma {:induction false} BranchesAdd(g: Generator, scope: Scope, branches: seq<Branch>, depth: nat, out: Output)
    requires GoesOn(g)
    ensures Added(out, CompiledBranches(g, scope, branches, depth, out))
    decreases depth, branches, 0
  {
    if branches != [] {
      var start := Put(out, Branching(g, scope, branches[0]));
      PutAdds(out, Branching(g, scope, branches[0]), out.counter);
      CompilingAdds(g, scope, branches[0].nodes, depth, start);
      var o := Compiled(g, scope, branches[0].nodes, depth, start);
      JoinLast(out, start, o);
      if o.Done? {
        BranchesAdd(g, scope, branches[1..], depth, o.out);
        JoinLast(out, o.out, CompiledBranches(g, scope, branches[1..], depth, o.out));
      }
    }
  }

  lemma {:induction false} AlternateAdds(g: Generator, scope: Scope, span: Span, alternate: Alternate, depth: nat, out: Output)
    requires GoesOn(g)
    ensures Added(out, CompiledAlternate(g, scope, span, alternate, depth, out))
    decreases depth, alternate, 0
  {
    if alternate.Alternate? {
      var start := Put(out, Code(g.otherwise, span, Otherwise));
      PutAdds(out, Code(g.otherwise, span, Otherwise), out.counter);
      CompilingAdds(g, scope, alternate.nodes, depth, start);
      JoinLast(out, start, Compiled(g, scope, alternate.nodes, depth, start));
    }
  }

  // ---- all views --------------------------------------------------------------------------------------------

  /** The numbers a view uses lie above those used before it, and the next view starts behind them. */
  lemma ViewAdds(texts: Generator, s: State, name: string, depth: nat)
    requires GoesOn(texts) && IsPage(s.documents, name) && OutcomeIn(texts, s, name, depth).Done?
    ensures Numbers(OutcomeIn(texts, s, name, depth).out.pieces, s.counter, AfterView(texts, s, name, depth).counter)
  {
    var resolved := Layouts.Resolve(s.documents, name, map[], [], IsOpen(s.documents, name));
    var out := Output([], s.counter);
    CompilingAdds(GeneratorFor(texts, s.documents, resolved.nodes), Page, resolved.nodes, depth, out);
    var pieces := OutcomeIn(texts, s, name, depth).out.pieces;
    assert pieces[0..] == pieces;
  }

  lemma {:induction false} CounterRises(texts: Generator, s: State, names: seq<string>, i: nat, j: nat, depth: nat)
    requires GoesOn(texts) && i <= j <= |names|
    ensures AfterViews(texts, s, names[..i], depth).counter <= AfterViews(texts, s, names[..j], depth).counter
    decreases j
  {
    if i < j {
      CounterRises(texts, s, names, i, j - 1, depth);
      var before := AfterViews(texts, s, names[..j - 1], depth);
      assert names[..j][..j - 1] == names[..j - 1];
      if IsPage(before.documents, names[j - 1]) && OutcomeIn(texts, before, names[j - 1], depth).Done? {
        ViewAdds(texts, before, names[j - 1], depth);
      }
    }
  }

  /** What the view at i comes to, compiled over what the views before it left. */
  function OutcomeAt(texts: Generator, s: State, names: seq<string>, i: nat, depth: nat): Outcome
    requires i < |names|
  {
    OutcomeIn(texts, AfterViews(texts, s, names[..i], depth), names[i], depth)
  }

  predicate IsPageAt(texts: Generator, s: State, names: seq<string>, i: nat, depth: nat)
    requires i < |names|
  {
    IsPage(AfterViews(texts, s, names[..i], depth).documents, names[i])
  }

  /** No number is used twice: not in one view, and not in two. */
  lemma NumbersAreFresh(texts: Generator, s: State, names: seq<string>, i: nat, j: nat, depth: nat, k: nat, l: nat)
    requires GoesOn(texts) && i <= j < |names|
    requires IsPageAt(texts, s, names, i, depth) && IsPageAt(texts, s, names, j, depth)
    requires OutcomeAt(texts, s, names, i, depth).Done? && OutcomeAt(texts, s, names, j, depth).Done?
    requires k < |OutcomeAt(texts, s, names, i, depth).out.pieces| && l < |OutcomeAt(texts, s, names, j, depth).out.pieces|
    requires i < j || k < l
    ensures var a, b := OutcomeAt(texts, s, names, i, depth).out.pieces[k], OutcomeAt(texts, s, names, j, depth).out.pieces[l];
      IsEntry(a) && IsEntry(b) ==> a.role.number < b.role.number
  {
    ViewAdds(texts, AfterViews(texts, s, names[..i], depth), names[i], depth);
    ViewAdds(texts, AfterViews(texts, s, names[..j], depth), names[j], depth);
    if i < j {
      assert names[..i + 1][..i] == names[..i];
      CounterRises(texts, s, names, i + 1, j, depth);
    }
  }
}
