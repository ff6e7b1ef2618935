/** The compiler that writes generated text and its map, directive by directive. */
module ViewCompiler {
  import opened Basics
  import opened SourceMap
  import opened ViewNodes
  import opened ViewRewrite
  import opened ViewCompile

  /** The bodies collected for a stack so far. */
  function BodyOf(stacks: map<string, seq<Node>>, name: string): seq<Node> {
    if name in stacks then stacks[name] else []
  }

  /** Collects the bodies pushed to each stack, after those already there. */
  method CollectStacks(nodes: seq<Node>, before: map<string, seq<Node>>) returns (stacks: map<string, seq<Node>>)
    ensures forall name :: BodyOf(stacks, name) == BodyOf(before, name) + Pushed(nodes, name)
    decreases nodes, 1
  {
    stacks := before;
    for i := 0 to |nodes|
      invariant forall name :: BodyOf(stacks, name) + Pushed(nodes[i..], name) == BodyOf(before, name) + Pushed(nodes, name)
    {
      ghost var was := stacks;
      stacks := CollectNode(nodes[i], stacks);
      forall name
        ensures BodyOf(stacks, name) + Pushed(nodes[i + 1..], name) == BodyOf(before, name) + Pushed(nodes, name)
      {
        assert nodes[i..][1..] == nodes[i + 1..];
        Regroup(BodyOf(was, name), PushedBy(nodes[i], name), Pushed(nodes[i + 1..], name));
      }
    }
  }

  lemma Regroup<T>(a: seq<T>, b: seq<T>, c: seq<T>)
    ensures a + b + c == a + (b + c)
  {
  }

  method CollectNode(node: Node, before: map<string, seq<Node>>) returns (stacks: map<string, seq<Node>>)
    ensures forall name :: BodyOf(stacks, name) == BodyOf(before, name) + PushedBy(node, name)
    decreases node, 0
  {
    match node {
      case Block(k, n, _, _, _, _, children) =>
        if k == Push {
          stacks := before[n := BodyOf(before, n) + children];
        } else {
          stacks := CollectStacks(children, before);
        }
      case Control(_, _, _, _, _, children, branches, alternate) =>
        var first := CollectStacks(children, before);
        var middle := CollectBranches(branches, first);
        stacks := middle;
        if alternate.Alternate? {
          stacks := CollectStacks(alternate.nodes, middle);
        }
        forall name
          ensures BodyOf(stacks, name) == BodyOf(before, name) + PushedBy(node, name)
        {
          var last := if alternate.Alternate? then Pushed(alternate.nodes, name) else [];
          Regroup(BodyOf(before, name), Pushed(children, name), PushedInBranches(branches, name));
          Regroup(BodyOf(before, name), Pushed(children, name) + PushedInBranches(branches, name), last);
        }
      case _ =>
        stacks := before;
    }
  }

  method CollectBranches(branches: seq<Branch>, before: map<string, seq<Node>>) returns (stacks: map<string, seq<Node>>)
    ensures forall name :: BodyOf(stacks, name) == BodyOf(before, name) + PushedInBranches(branches, name)
    decreases branches, 0
  {
    stacks := before;
    for i := 0 to |branches|
      invariant forall name ::
        BodyOf(stacks, name) + PushedInBranches(branches[i..], name) == BodyOf(before, name) + PushedInBranches(branches, name)
    {
      ghost var was := stacks;
      stacks := CollectStacks(branches[i].nodes, stacks);
      forall name
        ensures BodyOf(stacks, name) + PushedInBranches(branches[i + 1..], name)
             == BodyOf(before, name) + PushedInBranches(branches, name)
      {
        assert branches[i..][1..] == branches[i + 1..];
        Regroup(BodyOf(was, name), Pushed(branches[i].nodes, name), PushedInBranches(branches[i + 1..], name));
      }
    }
  }

  /** How compiling ended. */
  datatype Verdict = Finished | Failed | Unfinished

  function VerdictOf(o: Outcome): Verdict {
    match o
    case Done(_) => Finished
    case Refused => Failed
    case TooDeep => Unfinished
  }

  class Compiler {
    const g: Generator
    const builder: SourceBuilder
    const stacks: map<string, seq<Node>>
    ghost const sources: Sources
    var sequence: nat

    constructor (g: Generator, builder: SourceBuilder, stacks: map<string, seq<Node>>, counter: nat, ghost sources: Sources)
      ensures this.g == g && this.builder == builder && this.stacks == stacks && this.sources == sources && sequence == counter
    {
      this.g, this.builder, this.stacks, this.sources, sequence := g, builder, stacks, sources, counter;
    }

    /** The stacks are those of the page, and the builder holds the output. */
    ghost predicate Holds(out: Output)
      reads this, builder
    {
      && SoundGenerator(g, sources) && builder.Valid(sources)
      && (forall name :: BodyOf(stacks, name) == Pushed(g.page, name))
      && builder.text == Texts(out.pieces) && builder.mappings == Maps(out.pieces) && sequence == out.counter
    }

    method Write(p: Piece, ghost out: Output)
      requires Holds(out) && Honest(sources, p)
      modifies builder
      ensures Holds(Put(out, p))
    {
      builder.Append(p.text, p.span, IsSynthetic(p), sources);
      ghost var ps := Put(out, p).pieces;
      assert ps[..|ps| - 1] == out.pieces && ps[|ps| - 1] == p;
    }

    method WriteCode(code: seq<Line>, ghost out: Output)
      requires Holds(out)
      modifies builder
      ensures Holds(PutCode(out, code))
    {
      ghost var o := out;
      for i := 0 to |code|
        invariant Holds(o) && PutCode(o, code[i..]) == PutCode(out, code)
      {
        Write(Code(code[i].text, code[i].span, code[i].role), o);
        assert code[i..][1..] == code[i + 1..];
        o := Put(o, Code(code[i].text, code[i].span, code[i].role));
      }
    }

    method WriteEmission(e: Emission, ghost out: Output)
      requires Holds(out)
      modifies this, builder
      ensures Holds(PutEmission(out, e))
    {
      WriteCode(e.code, out);
      sequence := e.counter;
    }

    /** The variables in force, and a text with them renamed. */
    method Rewrite(scope: Scope, text: Bytes) returns (rewritten: Bytes)
      ensures rewritten == Rewritten(text, BindingsOf(g, scope))
    {
      rewritten := RewriteVariables(text, BindingsOf(g, scope));
    }

    method WriteCopy(scope: Scope, node: Node, ghost out: Output)
      requires Holds(out) && Sound(sources, node) && (node.Text? || node.Action?)
      modifies builder
      ensures Holds(Put(out, CopyOf(g, scope, node)))
    {
      if node.Text? {
        Write(Copy(node.text, node.span, |node.text| != node.span.end - node.span.start), out);
      } else {
        var rewritten := Rewrite(scope, node.text);
        Write(Copy(rewritten, node.span, rewritten != node.text), out);
      }
    }

    /** Compiles the nodes into the builder. */
    method CompileNodes(scope: Scope, nodes: seq<Node>, depth: nat, ghost out: Output) returns (v: Verdict)
      requires Holds(out) && AllSound(sources, nodes) && SoundScope(sources, scope)
      modifies this, builder
      ensures v == VerdictOf(Compiled(g, scope, nodes, depth, out))
      ensures v.Finished? ==> Holds(Compiled(g, scope, nodes, depth, out).out)
      decreases depth, nodes, 2
    {
      ghost var o := out;
      for i := 0 to |nodes|
        invariant Holds(o) && Compiled(g, scope, nodes[i..], depth, o) == Compiled(g, scope, nodes, depth, out)
      {
        assert nodes[i..][1..] == nodes[i + 1..];
        v := CompileNode(scope, nodes[i], depth, o);
        if !v.Finished? {
          return;
        }
        o := CompiledNode(g, scope, nodes[i], depth, o).out;
      }
      v := Finished;
    }

    method CompileNode(scope: Scope, node: Node, depth: nat, ghost out: Output) returns (v: Verdict)
      requires Holds(out) && Sound(sources, node) && SoundScope(sources, scope)
      modifies this, builder
      ensures v == VerdictOf(CompiledNode(g, scope, node, depth, out))
      ensures v.Finished? ==> Holds(CompiledNode(g, scope, node, depth, out).out)
      decreases depth, node, 1
    {
      if node.Text? || node.Action? {
        WriteCopy(scope, node, out);
        v := Finished;
      } else if Misplaced(node) {
        v := Failed;
      } else if Expands(node) {
        v := CompileElsewhere(scope, node, depth, out);
      } else if node.Leaf? {
        v := CompileEmission(scope, node, out);
      } else if node.Control? {
        v := CompileControl(scope, node, depth, out);
      } else if node.kind == Push {
        v := Finished;
      } else {
        v := CompileErrors(scope, node, depth, out);
      }
    }

    method CompileEmission(scope: Scope, node: Node, ghost out: Output) returns (v: Verdict)
      requires Holds(out)
      modifies this, builder
      ensures v == VerdictOf(CompiledEmission(g, scope, node, out))
      ensures v.Finished? ==> Holds(CompiledEmission(g, scope, node, out).out)
    {
      if g.refuses(Bare(scope), node) {
        return Failed;
      }
      WriteEmission(Emit(g, scope, sequence, node), out);
      v := Finished;
    }

    /** What a component call, a slot or a stack stands for; stacks are as collected. */
    method LookUp(scope: Scope, node: Node, ghost out: Output) returns (e: Option<Expansion>)
      requires Holds(out) && Expands(node) && Sound(sources, node) && SoundScope(sources, scope)
      ensures e == Lookup(g, scope, out.counter, node)
      ensures e.Some? ==> AllSound(sources, e.value.nodes) && SoundScope(sources, e.value.scope)
    {
      if Lookup(g, scope, out.counter, node).Some? {
        LookupIsSound(sources, g, scope, out.counter, node);
      }
      if node.kind == Stack {
        e := Some(Expansion(Emission([], sequence), BodyOf(stacks, node.name), scope, []));
      } else {
        e := Lookup(g, scope, sequence, node);
      }
    }

    /** Compiles a component call, a slot or a stack. */
    method CompileElsewhere(scope: Scope, node: Node, depth: nat, ghost out: Output) returns (v: Verdict)
      requires Holds(out) && Sound(sources, node) && SoundScope(sources, scope) && Expands(node)
      modifies this, builder
      ensures v == VerdictOf(CompiledElsewhere(g, scope, node, depth, out))
      ensures v.Finished? ==> Holds(CompiledElsewhere(g, scope, node, depth, out).out)
      decreases depth, node, 0
    {
      var e := LookUp(scope, node, out);
      if e.None? {
        return Failed;
      }
      if depth == 0 {
        return Unfinished;
      }
      WriteEmission(e.value.before, out);
      ghost var start := PutEmission(out, e.value.before);
      v := CompileNodes(e.value.scope, e.value.nodes, depth - 1, start);
      if v.Finished? {
        WriteCode(e.value.after, Compiled(g, e.value.scope, e.value.nodes, depth - 1, start).out);
      }
    }

    method CompileErrors(scope: Scope, node: Node, depth: nat, ghost out: Output) returns (v: Verdict)
      requires Holds(out) && Sound(sources, node) && SoundScope(sources, scope) && node.Block?
      modifies this, builder
      ensures v == VerdictOf(CompiledErrors(g, scope, node, depth, out))
      ensures v.Finished? ==> Holds(CompiledErrors(g, scope, node, depth, out).out)
      decreases depth, node, 0
    {
      v := CompileEmission(scope, node, out);
      if !v.Finished? {
        return;
      }
      ghost var start := CompiledEmission(g, scope, node, out).out;
      v := CompileNodes(scope, node.children, depth, start);
      if v.Finished? {
        Write(Code(g.ending, node.span, Ends), Compiled(g, scope, node.children, depth, start).out);
      }
    }

    method CompileControl(scope: Scope, node: Node, depth: nat, ghost out: Output) returns (v: Verdict)
      requires Holds(out) && Sound(sources, node) && SoundScope(sources, scope) && node.Control?
      modifies this, builder
      ensures v == VerdictOf(CompiledControl(g, scope, node, depth, out))
      ensures v.Finished? ==> Holds(CompiledControl(g, scope, node, depth, out).out)
      decreases depth, node, 0, 1
    {
      var pipeline := Rewrite(scope, g.trim(node.raw));
      Write(Code(g.opening(node.kind, pipeline), node.span, Opens(node.kind, pipeline)), out);
      ghost var start := Put(out, Opening(g, scope, node));
      v := CompileNodes(scope, node.children, depth, start);
      if v.Finished? {
        v := CompileRest(scope, node, depth, Compiled(g, scope, node.children, depth, start).out);
      }
    }

    /** Compiles what follows the first body of a control directive. */
    method CompileRest(scope: Scope, node: Node, depth: nat, ghost out: Output) returns (v: Verdict)
      requires Holds(out) && Sound(sources, node) && SoundScope(sources, scope) && node.Control?
      modifies this, builder
      ensures v == VerdictOf(CompiledRest(g, scope, node, depth, out))
      ensures v.Finished? ==> Holds(CompiledRest(g, scope, node, depth, out).out)
      decreases depth, node, 0, 0
    {
      v := CompileBranches(scope, node.branches, depth, out);
      if !v.Finished? {
        return;
      }
      ghost var middle := CompiledBranches(g, scope, node.branches, depth, out).out;
      v := CompileAlternate(scope, node.span, node.alternate, depth, middle);
      if v.Finished? {
        Write(Code(g.ending, node.span, Ends), CompiledAlternate(g, scope, node.span, node.alternate, depth, middle).out);
      }
    }

    method CompileBranches(scope: Scope, branches: seq<Branch>, depth: nat, ghost out: Output) returns (v: Verdict)
      requires Holds(out) && SoundScope(sources, scope) && forall i :: 0 <= i < |branches| ==> AllSound(sources, branches[i].nodes)
      modifies this, builder
      ensures v == VerdictOf(CompiledBranches(g, scope, branches, depth, out))
      ensures v.Finished? ==> Holds(CompiledBranches(g, scope, branches, depth, out).out)
      decreases depth, branches, 0
    {
      ghost var o := out;
      for i := 0 to |branches|
        invariant Holds(o) && CompiledBranches(g, scope, branches[i..], depth, o) == CompiledBranches(g, scope, branches, depth, out)
      {
        assert branches[i..][1..] == branches[i + 1..];
        var pipeline := Rewrite(scope, g.trim(branches[i].raw));
        Write(Code(g.branching(pipeline), branches[i].span, Branches(pipeline)), o);
        ghost var start := Put(o, Branching(g, scope, branches[i]));
        v := CompileNodes(scope, branches[i].nodes, depth, start);
        if !v.Finished? {
          return;
        }
        o := Compiled(g, scope, branches[i].nodes, depth, start).out;
      }
      v := Finished;
    }

    method CompileAlternate(scope: Scope, span: Span, alternate: Alternate, depth: nat, ghost out: Output) returns (v: Verdict)
      requires Holds(out) && SoundScope(sources, scope) && (alternate.Alternate? ==> AllSound(sources, alternate.nodes))
      modifies this, builder
      ensures v == VerdictOf(CompiledAlternate(g, scope, span, alternate, depth, out))
      ensures v.Finished? ==> Holds(CompiledAlternate(g, scope, span, alternate, depth, out).out)
      decreases depth, alternate, 0
    {
      if alternate.NoAlternate? || alternate.nodes == [] {
        return Finished;
      }
      Write(Code(g.otherwise, span, Otherwise), out);
      v := CompileNodes(scope, alternate.nodes, depth, Put(out, Code(g.otherwise, span, Otherwise)));
    }
  }
}
