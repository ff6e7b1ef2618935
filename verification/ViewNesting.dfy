/** The nesting of a page, and that compiling writes it down: the pieces of every page that compiles are balanced and read
    back as the page's own directives. */
module ViewNesting {
  import opened Basics
  import opened SourceMap
  import opened ViewNodes
  import opened ViewRewrite
  import opened ViewCompile
  import opened ViewBrackets

  /** Trees, and the last number used for fresh variables. */
  datatype Forest = Forest(trees: seq<Tree>, counter: nat)

  function Renamed(g: Generator, scope: Scope, source: Bytes): Bytes {
    Rewritten(source, BindingsOf(g, scope))
  }

  function Alone(code: seq<(Bytes, Span)>): seq<Tree> {
    seq(|code|, i requires 0 <= i < |code| => Single(Code(code[i].0, code[i].1, Emits)))
  }

  function EndAt(g: Generator, span: Span): Piece {
    Code(g.ending, span, Ends)
  }

  /** The nodes as trees: a text or an action is a piece; a control directive encloses its bodies between its opening, with
      its keyword and its pipeline, and its end; so do @errors and component calls; slots and stacks are what they stand for. */
  function Nesting(g: Generator, scope: Scope, nodes: seq<Node>, depth: nat, n: nat): Option<Forest>
    decreases depth, nodes, 2
  {
    if nodes == [] then Some(Forest([], n))
    else
      var first := NestingOf(g, scope, nodes[0], depth, n);
      if first.None? then None
      else
        var rest := Nesting(g, scope, nodes[1..], depth, first.value.counter);
        if rest.None? then None else Some(Forest(first.value.trees + rest.value.trees, rest.value.counter))
  }

  function NestingOf(g: Generator, scope: Scope, node: Node, depth: nat, n: nat): Option<Forest>
    decreases depth, node, 1
  {
    if node.Text? then Some(Forest([Single(Copy(node.text, node.span, |node.text| != node.span.end - node.span.start))], n))
    else if node.Action? then
      Some(Forest([Single(Copy(Renamed(g, scope, node.text), node.span, Renamed(g, scope, node.text) != node.text))], n))
    else if Misplaced(node) then None
    else if Expands(node) then NestingElsewhere(g, scope, node, depth, n)
    else if node.Control? then NestingOfControl(g, scope, node, depth, n)
    else if node.Block? && node.kind == Push then Some(Forest([], n))
    else if g.refuses(Bare(scope), node) then None
    else
      var start := g.emit(scope, n, node);
      if node.Leaf? then Some(Forest(Alone(start.code), start.counter))
      else
        var body := Nesting(g, scope, node.children, depth, start.counter);
        if body.None? then None
        else
          var opening := Code(g.listing(scope, start.counter, node), node.span, Lists(node.name));
          Some(Forest(Alone(start.code) + [Nested(opening, body.value.trees, [], NoOther, EndAt(g, node.span))], body.value.counter))
  }

  function NestingElsewhere(g: Generator, scope: Scope, node: Node, depth: nat, n: nat): Option<Forest>
    requires Expands(node)
    decreases depth, node, 0
  {
    var e := Lookup(g, scope, n, node);
    if e.None? || depth == 0 then None
    else if node.kind != Component then Nesting(g, e.value.scope, e.value.nodes, depth - 1, n)
    else
      var body := Nesting(g, e.value.scope, e.value.nodes, depth - 1, n + 1);
      if body.None? then None
      else
        var opening := Code(g.entering, node.span, Enters(node.name, n + 1));
        var inner := Alone(g.enter(scope, n + 1, node)) + body.value.trees;
        Some(Forest([Nested(opening, inner, [], NoOther, EndAt(g, node.span))], body.value.counter))
  }

  function NestingOfControl(g: Generator, scope: Scope, node: Node, depth: nat, n: nat): Option<Forest>
    requires node.Control?
    decreases depth, node, 0
  {
    var pipeline := Renamed(g, scope, g.trim(node.raw));
    var body := Nesting(g, scope, node.children, depth, n);
    if body.None? then None
    else
      var arms := ArmsOf(g, scope, node.branches, depth, body.value.counter);
      if arms.None? then None
      else
        var other := OtherOf(g, scope, node.span, node.alternate, depth, arms.value.1);
        if other.None? then None
        else
          var opening := Code(g.opening(node.kind, pipeline), node.span, Opens(node.kind, pipeline));
          Some(Forest([Nested(opening, body.value.trees, arms.value.0, other.value.0, EndAt(g, node.span))], other.value.1))
  }

  function ArmsOf(g: Generator, scope: Scope, branches: seq<Branch>, depth: nat, n: nat): Option<(seq<Arm>, nat)>
    decreases depth, branches, 0
  {
    if branches == [] then Some(([], n))
    else
      var pipeline := Renamed(g, scope, g.trim(branches[0].raw));
      var body := Nesting(g, scope, branches[0].nodes, depth, n);
      if body.None? then None
      else
        var rest := ArmsOf(g, scope, branches[1..], depth, body.value.counter);
        if rest.None? then None
        else
          var start := Code(g.branching(pipeline), branches[0].span, Branches(pipeline));
          Some(([Arm(start, body.value.trees)] + rest.value.0, rest.value.1))
  }

  /** An @else or @empty without a body leaves no trace. */
  function OtherOf(g: Generator, scope: Scope, span: Span, alternate: Alternate, depth: nat, n: nat): Option<(Other, nat)>
    decreases depth, alternate, 0
  {
    if alternate.NoAlternate? || alternate.nodes == [] then Some((NoOther, n))
    else
      var body := Nesting(g, scope, alternate.nodes, depth, n);
      if body.None? then None else Some((Other(Code(g.otherwise, span, Otherwise), body.value.trees), body.value.counter))
  }

  // ---- joining --------------------------------------------------------------------------------------------------

  lemma FlatStep(t: Tree, rest: seq<Tree>)
    ensures Flat([t] + rest) == FlatTree(t) + Flat(rest) && (Proper([t] + rest) <==> ProperTree(t) && Proper(rest))
  {
    assert ([t] + rest)[0] == t && ([t] + rest)[1..] == rest;
  }

  lemma {:induction false} FlatJoins(a: seq<Tree>, b: seq<Tree>)
    ensures Flat(a + b) == Flat(a) + Flat(b) && (Proper(a) && Proper(b) ==> Proper(a + b))
    decreases |a|
  {
    if a == [] {
      assert a + b == b;
    } else {
      FlatJoins(a[1..], b);
      FlatStep(a[0], a[1..]);
      FlatStep(a[0], a[1..] + b);
      assert [a[0]] + a[1..] == a && [a[0]] + (a[1..] + b) == a + b;
      assert FlatTree(a[0]) + (Flat(a[1..]) + Flat(b)) == FlatTree(a[0]) + Flat(a[1..]) + Flat(b);
    }
  }

  lemma OneTree(t: Tree)
    ensures Flat([t]) == FlatTree(t) && (Proper([t]) <==> ProperTree(t))
  {
    assert [t][1..] == [];
  }

  /** Plain code is put down piece by piece. */
  lemma {:induction false} AloneIsPut(out: Output, code: seq<(Bytes, Span)>)
    ensures PutCode(out, Plainly(code)).pieces == out.pieces + Flat(Alone(code)) && Proper(Alone(code))
    ensures PutCode(out, Plainly(code)).counter == out.counter
    decreases |code|
  {
    if code != [] {
      var p := Code(code[0].0, code[0].1, Emits);
      assert Plainly(code)[1..] == Plainly(code[1..]) && Alone(code)[1..] == Alone(code[1..]);
      AloneIsPut(Put(out, p), code[1..]);
      assert out.pieces + [p] + Flat(Alone(code[1..])) == out.pieces + Flat(Alone(code));
    }
  }

  lemma {:induction false} PutJoins(out: Output, a: seq<Line>, b: seq<Line>)
    ensures PutCode(out, a + b) == PutCode(PutCode(out, a), b)
    decreases |a|
  {
    if a == [] {
      assert a + b == b;
    } else {
      assert (a + b)[0] == a[0] && (a + b)[1..] == a[1..] + b;
      PutJoins(Put(out, Code(a[0].text, a[0].span, a[0].role)), a[1..], b);
    }
  }

  lemma PutOne(out: Output, line: Line)
    ensures PutCode(out, [line]) == Put(out, Code(line.text, line.span, line.role))
  {
    assert [line][1..] == [];
  }

  // ---- compiling writes the nesting down ---------------------------------------------------------------------------

  /** The outcome is these trees, put down after `out`; without them it is no result. */
  predicate Writes(o: Outcome, out: Output, f: Option<Forest>) {
    && (o.Done? <==> f.Some?)
    && (f.Some? ==> o.out.pieces == out.pieces + Flat(f.value.trees) && o.out.counter == f.value.counter && Proper(f.value.trees))
  }

  lemma WritesThen(out: Output, middle: Output, end: Output, a: seq<Tree>, b: seq<Tree>)
    requires middle.pieces == out.pieces + Flat(a) && end.pieces == middle.pieces + Flat(b) && Proper(a) && Proper(b)
    ensures end.pieces == out.pieces + Flat(a + b) && Proper(a + b)
  {
    FlatJoins(a, b);
  }

  lemma {:induction false} CompiledIsNesting(g: Generator, scope: Scope, nodes: seq<Node>, depth: nat, out: Output)
    ensures Writes(Compiled(g, scope, nodes, depth, out), out, Nesting(g, scope, nodes, depth, out.counter))
    decreases depth, nodes, 2
  {
    if nodes != [] {
      NodeIsNesting(g, scope, nodes[0], depth, out);
      var o := CompiledNode(g, scope, nodes[0], depth, out);
      if o.Done? {
        CompiledIsNesting(g, scope, nodes[1..], depth, o.out);
        var rest := Nesting(g, scope, nodes[1..], depth, o.out.counter);
        if rest.Some? {
          WritesThen(out, o.out, Compiled(g, scope, nodes, depth, out).out, NestingOf(g, scope, nodes[0], depth, out.counter).value.trees,
                     rest.value.trees);
        }
      }
    } else {
      assert out.pieces + [] == out.pieces;
    }
  }

  lemma {:induction false} NodeIsNesting(g: Generator, scope: Scope, node: Node, depth: nat, out: Output)
    ensures Writes(CompiledNode(g, scope, node, depth, out), out, NestingOf(g, scope, node, depth, out.counter))
    decreases depth, node, 1
  {
    if node.Text? || node.Action? {
      OneTree(Single(CopyOf(g, scope, node)));
    } else if Misplaced(node) {
    } else if Expands(node) {
      ElsewhereIsNesting(g, scope, node, depth, out);
    } else if node.Control? {
      ControlIsNesting(g, scope, node, depth, out);
    } else if node.Leaf? {
      AloneIsPut(out, g.emit(scope, out.counter, node).code);
    } else if node.kind == Push {
      assert out.pieces + [] == out.pieces;
    } else {
      ErrorsIsNesting(g, scope, node, depth, out);
    }
  }

  /** An opening, a body and an end make a tree. */
  lemma NestedIsWritten(out: Output, opening: Piece, body: seq<Tree>, inner: Output, ending: Piece)
    requires inner.pieces == out.pieces + [opening] + Flat(body) && Proper(body)
    requires IsOpening(opening) && IsEnd(ending)
    ensures var t := Nested(opening, body, [], NoOther, ending);
      Put(inner, ending).pieces == out.pieces + Flat([t]) && Proper([t])
  {
    var t := Nested(opening, body, [], NoOther, ending);
    OneTree(t);
    assert FlatTree(t) == [opening] + Flat(body) + [ending];
  }

  lemma {:induction false} ErrorsIsNesting(g: Generator, scope: Scope, node: Node, depth: nat, out: Output)
    requires node.Block? && !Misplaced(node) && !Expands(node) && node.kind != Push
    ensures Writes(CompiledErrors(g, scope, node, depth, out), out, NestingOf(g, scope, node, depth, out.counter))
    decreases depth, node, 0
  {
    if !g.refuses(Bare(scope), node) {
      var f := g.emit(scope, out.counter, node);
      var opening := Code(g.listing(scope, f.counter, node), node.span, Lists(node.name));
      var bound := PutCode(out, Plainly(f.code));
      AloneIsPut(out, f.code);
      PutJoins(out, Plainly(f.code), [Line(opening.text, opening.span, opening.role)]);
      PutOne(bound, Line(opening.text, opening.span, opening.role));
      var start := CompiledEmission(g, scope, node, out).out;
      assert start == Put(bound, opening).(counter := f.counter);
      CompiledIsNesting(g, scope, node.children, depth, start);
      var body := Nesting(g, scope, node.children, depth, f.counter);
      if body.Some? {
        var inner := Compiled(g, scope, node.children, depth, start).out;
        NestedIsWritten(bound, opening, body.value.trees, inner, EndAt(g, node.span));
        WritesThen(out, bound, Put(inner, EndAt(g, node.span)), Alone(f.code),
                   [Nested(opening, body.value.trees, [], NoOther, EndAt(g, node.span))]);
      }
    }
  }

  lemma {:induction false} ElsewhereIsNesting(g: Generator, scope: Scope, node: Node, depth: nat, out: Output)
    requires Expands(node)
    ensures Writes(CompiledElsewhere(g, scope, node, depth, out), out, NestingElsewhere(g, scope, node, depth, out.counter))
    decreases depth, node, 0
  {
    var e := Lookup(g, scope, out.counter, node);
    if e.Some? && depth > 0 {
      var start := PutEmission(out, e.value.before);
      CompiledIsNesting(g, e.value.scope, e.value.nodes, depth - 1, start);
      if node.kind == Component {
        ComponentIsNesting(g, scope, node, depth, out);
      } else {
        assert start == out && e.value.after == [];
      }
    }
  }

  lemma EntryIsWritten(out: Output, entry: Line, code: seq<(Bytes, Span)>)
    ensures PutCode(out, [entry] + Plainly(code)).pieces == out.pieces + [Code(entry.text, entry.span, entry.role)] + Flat(Alone(code))
    ensures Proper(Alone(code))
  {
    PutJoins(out, [entry], Plainly(code));
    PutOne(out, entry);
    AloneIsPut(Put(out, Code(entry.text, entry.span, entry.role)), code);
  }

  /** The outcome, with an end put behind it. */
  function Ended(o: Outcome, end: Piece): Outcome {
    if o.Done? then Done(Put(o.out, end)) else o
  }

  function Enclosed(opening: Piece, before: seq<Tree>, f: Option<Forest>, end: Piece): Option<Forest> {
    if f.None? then None else Some(Forest([Nested(opening, before + f.value.trees, [], NoOther, end)], f.value.counter))
  }

  lemma EnclosedIsWritten(out: Output, opening: Piece, start: Output, code: seq<(Bytes, Span)>, o: Outcome, f: Option<Forest>,
      end: Piece)
    requires start.pieces == out.pieces + [opening] + Flat(Alone(code)) && Proper(Alone(code))
    requires Writes(o, start, f) && IsOpening(opening) && IsEnd(end)
    ensures Writes(Ended(o, end), out, Enclosed(opening, Alone(code), f, end))
  {
    if f.Some? {
      WritesThen(Put(out, opening), start, o.out, Alone(code), f.value.trees);
      NestedIsWritten(out, opening, Alone(code) + f.value.trees, o.out, end);
    }
  }

  lemma ComponentIsNesting(g: Generator, scope: Scope, node: Node, depth: nat, out: Output)
    requires Expands(node) && node.kind == Component && depth > 0 && Lookup(g, scope, out.counter, node).Some?
    requires var e := Lookup(g, scope, out.counter, node).value;
      var start := PutEmission(out, e.before);
      Writes(Compiled(g, e.scope, e.nodes, depth - 1, start), start, Nesting(g, e.scope, e.nodes, depth - 1, start.counter))
    ensures Writes(CompiledElsewhere(g, scope, node, depth, out), out, NestingElsewhere(g, scope, node, depth, out.counter))
  {
    var e := Lookup(g, scope, out.counter, node).value;
    var start := PutEmission(out, e.before);
    var opening := Code(g.entering, node.span, Enters(node.name, out.counter + 1));
    var code := g.enter(scope, out.counter + 1, node);
    EntryIsWritten(out, Line(opening.text, opening.span, opening.role), code);
    var inner, end := Compiled(g, e.scope, e.nodes, depth - 1, start), EndAt(g, node.span);
    EnclosedIsWritten(out, opening, start, code, inner, Nesting(g, e.scope, e.nodes, depth - 1, out.counter + 1), end);
    if inner.Done? {
      PutOne(inner.out, Line(g.ending, node.span, Ends));
    }
    assert CompiledElsewhere(g, scope, node, depth, out) == Ended(inner, end);
  }

  /** After a control directive's first body: the branches and the other body, up to the end. */
  lemma {:induction false} ControlIsNesting(g: Generator, scope: Scope, node: Node, depth: nat, out: Output)
    requires node.Control?
    ensures Writes(CompiledControl(g, scope, node, depth, out), out, NestingOfControl(g, scope, node, depth, out.counter))
    decreases depth, node, 0
  {
    var opening := Opening(g, scope, node);
    var start := Put(out, opening);
    CompiledIsNesting(g, scope, node.children, depth, start);
    var body := Nesting(g, scope, node.children, depth, out.counter);
    if body.Some? {
      var first := Compiled(g, scope, node.children, depth, start).out;
      BranchesAreArms(g, scope, node.branches, depth, first);
      var arms := ArmsOf(g, scope, node.branches, depth, body.value.counter);
      if arms.Some? {
        var middle := CompiledBranches(g, scope, node.branches, depth, first).out;
        AlternateIsOther(g, scope, node.span, node.alternate, depth, middle);
        var other := OtherOf(g, scope, node.span, node.alternate, depth, arms.value.1);
        if other.Some? {
          var last := CompiledAlternate(g, scope, node.span, node.alternate, depth, middle).out;
          var t := Nested(opening, body.value.trees, arms.value.0, other.value.0, EndAt(g, node.span));
          OneTree(t);
          Collect(out.pieces, opening, Flat(body.value.trees), FlatArms(arms.value.0), FlatOther(other.value.0), EndAt(g, node.span));
        }
      }
    }
  }

  lemma Collect<T>(out: seq<T>, x: T, a: seq<T>, b: seq<T>, c: seq<T>, y: T)
    ensures out + [x] + a + b + c + [y] == out + ([x] + a + b + c + [y])
  {
  }

  lemma {:induction false} BranchesAreArms(g: Generator, scope: Scope, branches: seq<Branch>, depth: nat, out: Output)
    ensures var o, arms := CompiledBranches(g, scope, branches, depth, out), ArmsOf(g, scope, branches, depth, out.counter);
      && (o.Done? <==> arms.Some?)
      && (arms.Some? ==> o.out.pieces == out.pieces + FlatArms(arms.value.0) && o.out.counter == arms.value.1 && ProperArms(arms.value.0))
    decreases depth, branches, 0
  {
    if branches == [] {
      assert out.pieces + [] == out.pieces;
    } else {
      var start := Put(out, Branching(g, scope, branches[0]));
      CompiledIsNesting(g, scope, branches[0].nodes, depth, start);
      var body := Nesting(g, scope, branches[0].nodes, depth, out.counter);
      if body.Some? {
        var o := Compiled(g, scope, branches[0].nodes, depth, start).out;
        BranchesAreArms(g, scope, branches[1..], depth, o);
        var rest := ArmsOf(g, scope, branches[1..], depth, body.value.counter);
        if rest.Some? {
          ArmWritten(out, Branching(g, scope, branches[0]), body.value.trees, rest.value.0);
        }
      }
    }
  }

  lemma ArmWritten(out: Output, start: Piece, body: seq<Tree>, rest: seq<Arm>)
    requires IsBranch(start) && Proper(body) && ProperArms(rest)
    ensures var arms := [Arm(start, body)] + rest;
      ProperArms(arms) && out.pieces + [start] + Flat(body) + FlatArms(rest) == out.pieces + FlatArms(arms)
  {
    var arms := [Arm(start, body)] + rest;
    assert arms[1..] == rest;
    assert FlatArms(arms) == [start] + Flat(body) + FlatArms(rest);
  }

  lemma {:induction false} AlternateIsOther(g: Generator, scope: Scope, span: Span, alternate: Alternate, depth: nat, out: Output)
    ensures var o, other := CompiledAlternate(g, scope, span, alternate, depth, out), OtherOf(g, scope, span, alternate, depth, out.counter);
      && (o.Done? <==> other.Some?)
      && (other.Some? ==>
            && o.out.pieces == out.pieces + FlatOther(other.value.0) && o.out.counter == other.value.1
            && (other.value.0.Other? ==> IsOther(other.value.0.start) && Proper(other.value.0.body)))
    decreases depth, alternate, 0
  {
    if alternate.NoAlternate? || alternate.nodes == [] {
      assert out.pieces + [] == out.pieces;
    } else {
      var start := Put(out, Code(g.otherwise, span, Otherwise));
      CompiledIsNesting(g, scope, alternate.nodes, depth, start);
      var body := Nesting(g, scope, alternate.nodes, depth, out.counter);
      if body.Some? {
        assert start.pieces + Flat(body.value.trees) == out.pieces + ([Code(g.otherwise, span, Otherwise)] + Flat(body.value.trees));
      }
    }
  }

  /** The pieces of every page that compiles are balanced, and read back as the page's own nesting. */
  lemma PageReadsBack(g: Generator, depth: nat, n: nat)
    requires Compiled(g, Page, g.page, depth, Output([], n)).Done?
    ensures Nesting(g, Page, g.page, depth, n).Some?
    ensures ReadsAs(Compiled(g, Page, g.page, depth, Output([], n)).out.pieces, Nesting(g, Page, g.page, depth, n).value.trees)
  {
    CompiledIsNesting(g, Page, g.page, depth, Output([], n));
    var trees := Nesting(g, Page, g.page, depth, n).value.trees;
    ReadsFlat(trees, []);
    assert [] + Flat(trees) == Flat(trees) + [] == Flat(trees);
  }
}
