/** Section and yield expansion of the view compiler. */
module Yields {
  import opened Basics
  import opened ViewNodes

  /** A place where a section goes. */
  predicate IsYield(node: Node) {
    node.Leaf? && node.kind == Yield
  }

  /** A block with another body. */
  function Refilled(item: Node, children: seq<Node>): (node: Node)
    requires item.Block?
    ensures node.Block?
  {
    Block(item.kind, item.name, item.raw, item.head, item.close, item.span, children)
  }

  /** A control directive with other bodies. */
  function Rebuilt(item: Node, children: seq<Node>, branches: seq<Branch>, otherwise: seq<Node>): (node: Node)
    requires item.Control?
    ensures node.Control?
  {
    item.(children := children, branches := branches,
          alternate := if item.alternate.Alternate? then item.alternate.(nodes := otherwise) else NoAlternate)
  }

  type Sections = map<string, seq<Node>>

  datatype Expansion = Cycle | Done(nodes: seq<Node>)

  function Append(a: Expansion, b: Expansion): Expansion {
    if a.Cycle? || b.Cycle? then Cycle else Done(a.nodes + b.nodes)
  }

  /** What substituteYields returns; `resolving` holds the sections being expanded. */
  function Substitute(nodes: seq<Node>, sections: Sections, open: bool, resolving: set<string>): Expansion
    decreases |sections.Keys - resolving|, nodes, 1
  {
    if nodes == [] then Done([])
    else Append(SubstituteNode(nodes[0], sections, open, resolving), Substitute(nodes[1..], sections, open, resolving))
  }

  function SubstituteNode(item: Node, sections: Sections, open: bool, resolving: set<string>): Expansion
    decreases |sections.Keys - resolving|, item, 0
  {
    if IsYield(item) then
      if item.name !in sections then (if open then Done([]) else Done([item]))
      else if item.name in resolving then Cycle
      else
        Shrinks(sections.Keys, resolving, item.name);
        Substitute(sections[item.name], sections, open, resolving + {item.name})
    else
      match item
      case Block(_, _, _, _, _, _, children) =>
        var c := Substitute(children, sections, open, resolving);
        if c.Cycle? then Cycle else Done([Refilled(item, c.nodes)])
      case Control(_, _, _, _, _, children, branches, alternate) =>
        var c := Substitute(children, sections, open, resolving);
        var a := if alternate.Alternate? then Substitute(alternate.nodes, sections, open, resolving) else Done([]);
        var b := SubstituteAll(branches, sections, open, resolving);
        if c.Cycle? || a.Cycle? || b.None? then Cycle else Done([Rebuilt(item, c.nodes, b.value, a.nodes)])
      case _ => Done([item])
  }

  function SubstituteAll(branches: seq<Branch>, sections: Sections, open: bool, resolving: set<string>): Option<seq<Branch>>
    decreases |sections.Keys - resolving|, branches, 0
  {
    if branches == [] then Some([])
    else
      var first := Substitute(branches[0].nodes, sections, open, resolving);
      var rest := SubstituteAll(branches[1..], sections, open, resolving);
      if first.Cycle? || rest.None? then None else Some([branches[0].(nodes := first.nodes)] + rest.value)
  }

  lemma Shrinks(keys: set<string>, resolving: set<string>, name: string)
    requires name in keys && name !in resolving
    ensures |keys - (resolving + {name})| < |keys - resolving|
  {
    assert keys - (resolving + {name}) == (keys - resolving) - {name};
  }

  // ---- plain unfolding ------------------------------------------------------------

  /** Replace every yield by its section, down to `depth` sections inside each other;
      Cycle when that was not deep enough. No section is remembered on the way. */
  function Unfold(nodes: seq<Node>, sections: Sections, open: bool, depth: nat): Expansion
    decreases depth, nodes, 1
  {
    if nodes == [] then Done([])
    else Append(UnfoldNode(nodes[0], sections, open, depth), Unfold(nodes[1..], sections, open, depth))
  }

  function UnfoldNode(item: Node, sections: Sections, open: bool, depth: nat): Expansion
    decreases depth, item, 0
  {
    if IsYield(item) then
      if item.name !in sections then (if open then Done([]) else Done([item]))
      else if depth == 0 then Cycle
      else Unfold(sections[item.name], sections, open, depth - 1)
    else
      match item
      case Block(_, _, _, _, _, _, children) =>
        var c := Unfold(children, sections, open, depth);
        if c.Cycle? then Cycle else Done([Refilled(item, c.nodes)])
      case Control(_, _, _, _, _, children, branches, alternate) =>
        var c := Unfold(children, sections, open, depth);
        var a := if alternate.Alternate? then Unfold(alternate.nodes, sections, open, depth) else Done([]);
        var b := UnfoldAll(branches, sections, open, depth);
        if c.Cycle? || a.Cycle? || b.None? then Cycle else Done([Rebuilt(item, c.nodes, b.value, a.nodes)])
      case _ => Done([item])
  }

  function UnfoldAll(branches: seq<Branch>, sections: Sections, open: bool, depth: nat): Option<seq<Branch>>
    decreases depth, branches, 0
  {
    if branches == [] then Some([])
    else
      var first := Unfold(branches[0].nodes, sections, open, depth);
      var rest := UnfoldAll(branches[1..], sections, open, depth);
      if first.Cycle? || rest.None? then None else Some([branches[0].(nodes := first.nodes)] + rest.value)
  }

  // ---- what is expanded is the unfolding --------------------------------------------

  lemma {:induction false} ExpansionIsUnfolding(nodes: seq<Node>, sections: Sections, open: bool, resolving: set<string>, depth: nat)
    requires Substitute(nodes, sections, open, resolving).Done? && |sections.Keys - resolving| <= depth
    ensures Unfold(nodes, sections, open, depth) == Substitute(nodes, sections, open, resolving)
    decreases |sections.Keys - resolving|, nodes, 1
  {
    if nodes != [] {
      NodeExpansionIsUnfolding(nodes[0], sections, open, resolving, depth);
      ExpansionIsUnfolding(nodes[1..], sections, open, resolving, depth);
    }
  }

  lemma {:induction false} NodeExpansionIsUnfolding(item: Node, sections: Sections, open: bool, resolving: set<string>, depth: nat)
    requires SubstituteNode(item, sections, open, resolving).Done? && |sections.Keys - resolving| <= depth
    ensures UnfoldNode(item, sections, open, depth) == SubstituteNode(item, sections, open, resolving)
    decreases |sections.Keys - resolving|, item, 0
  {
    if IsYield(item) {
      if item.name in sections {
        Shrinks(sections.Keys, resolving, item.name);
        ExpansionIsUnfolding(sections[item.name], sections, open, resolving + {item.name}, depth - 1);
      }
    } else {
      match item
      case Block(_, _, _, _, _, _, children) =>
        ExpansionIsUnfolding(children, sections, open, resolving, depth);
      case Control(_, _, _, _, _, children, branches, alternate) =>
        ExpansionIsUnfolding(children, sections, open, resolving, depth);
        if alternate.Alternate? {
          ExpansionIsUnfolding(alternate.nodes, sections, open, resolving, depth);
        }
        BranchExpansionIsUnfolding(branches, sections, open, resolving, depth);
      case _ =>
    }
  }

  lemma {:induction false} BranchExpansionIsUnfolding(branches: seq<Branch>, sections: Sections, open: bool, resolving: set<string>, depth: nat)
    requires SubstituteAll(branches, sections, open, resolving).Some? && |sections.Keys - resolving| <= depth
    ensures UnfoldAll(branches, sections, open, depth) == SubstituteAll(branches, sections, open, resolving)
    decreases |sections.Keys - resolving|, branches, 0
  {
    if branches != [] {
      ExpansionIsUnfolding(branches[0].nodes, sections, open, resolving, depth);
      BranchExpansionIsUnfolding(branches[1..], sections, open, resolving, depth);
    }
  }

  // ---- which sections reach which ------------------------------------------------------

  /** The sections that the nodes yield, anywhere inside them. */
  function Yielded(nodes: seq<Node>, sections: Sections): set<string>
    decreases nodes, 1
  {
    if nodes == [] then {} else YieldedBy(nodes[0], sections) + Yielded(nodes[1..], sections)
  }

  function YieldedBy(item: Node, sections: Sections): set<string>
    decreases item, 0
  {
    if IsYield(item) then (if item.name in sections then {item.name} else {})
    else
      match item
      case Block(_, _, _, _, _, _, children) => Yielded(children, sections)
      case Control(_, _, _, _, _, children, branches, alternate) =>
        Yielded(children, sections) + (if alternate.Alternate? then Yielded(alternate.nodes, sections) else {}) +
        YieldedAll(branches, sections)
      case _ => {}
  }

  function YieldedAll(branches: seq<Branch>, sections: Sections): set<string>
    decreases branches, 0
  {
    if branches == [] then {} else Yielded(branches[0].nodes, sections) + YieldedAll(branches[1..], sections)
  }

  /** The expansion of a section met while `resolving` runs into a cycle. */
  predicate Blocked(s: string, sections: Sections, open: bool, resolving: set<string>)
    requires s in sections
  {
    s in resolving || Substitute(sections[s], sections, open, resolving + {s}).Cycle?
  }

  ghost predicate SomeBlocked(names: set<string>, sections: Sections, open: bool, resolving: set<string>) {
    exists s :: s in names && s in sections && Blocked(s, sections, open, resolving)
  }

  lemma {:induction false} CycleIffBlocked(nodes: seq<Node>, sections: Sections, open: bool, resolving: set<string>)
    ensures Substitute(nodes, sections, open, resolving).Cycle? <==> SomeBlocked(Yielded(nodes, sections), sections, open, resolving)
    decreases nodes, 1
  {
    if nodes != [] {
      NodeCycleIffBlocked(nodes[0], sections, open, resolving);
      CycleIffBlocked(nodes[1..], sections, open, resolving);
    }
  }

  lemma {:induction false} NodeCycleIffBlocked(item: Node, sections: Sections, open: bool, resolving: set<string>)
    ensures SubstituteNode(item, sections, open, resolving).Cycle? <==> SomeBlocked(YieldedBy(item, sections), sections, open, resolving)
    decreases item, 0
  {
    if !IsYield(item) {
      match item
      case Block(_, _, _, _, _, _, children) =>
        CycleIffBlocked(children, sections, open, resolving);
      case Control(_, _, _, _, _, children, branches, alternate) =>
        CycleIffBlocked(children, sections, open, resolving);
        if alternate.Alternate? {
          CycleIffBlocked(alternate.nodes, sections, open, resolving);
        }
        BranchCycleIffBlocked(branches, sections, open, resolving);
      case _ =>
    }
  }

  lemma {:induction false} BranchCycleIffBlocked(branches: seq<Branch>, sections: Sections, open: bool, resolving: set<string>)
    ensures SubstituteAll(branches, sections, open, resolving).None? <==> SomeBlocked(YieldedAll(branches, sections), sections, open, resolving)
    decreases branches, 0
  {
    if branches != [] {
      CycleIffBlocked(branches[0].nodes, sections, open, resolving);
      BranchCycleIffBlocked(branches[1..], sections, open, resolving);
    }
  }

  /** Sections p[0], p[1], ..., each yielded inside the one before, the first inside the nodes. */
  predicate Path(nodes: seq<Node>, sections: Sections, p: seq<string>)
    decreases |p|
  {
    p == [] || (p[0] in sections && p[0] in Yielded(nodes, sections) && Path(sections[p[0]], sections, p[1..]))
  }

  /** A path that comes back: its last section is one being resolved, or stood on it before. */
  predicate Returns(resolving: set<string>, p: seq<string>) {
    p != [] && (p[|p| - 1] in resolving || p[|p| - 1] in p[..|p| - 1])
  }

  ghost predicate Circular(nodes: seq<Node>, sections: Sections, resolving: set<string>) {
    exists p :: Path(nodes, sections, p) && Returns(resolving, p)
  }

  lemma ReturnsStep(resolving: set<string>, s: string, p: seq<string>)
    requires s !in resolving && p != []
    ensures Returns(resolving, [s] + p) <==> Returns(resolving + {s}, p)
  {
    var q := [s] + p;
    assert q[|q| - 1] == p[|p| - 1] && q[..|q| - 1] == [s] + p[..|p| - 1];
  }

  lemma {:induction false} CycleMeansCircular(nodes: seq<Node>, sections: Sections, open: bool, resolving: set<string>)
    requires Substitute(nodes, sections, open, resolving).Cycle?
    ensures Circular(nodes, sections, resolving)
    decreases |sections.Keys - resolving|
  {
    CycleIffBlocked(nodes, sections, open, resolving);
    var s :| s in Yielded(nodes, sections) && s in sections && Blocked(s, sections, open, resolving);
    if s in resolving {
      var p := [s];
      assert p[1..] == [] && Path(nodes, sections, p) && Returns(resolving, p);
    } else {
      Shrinks(sections.Keys, resolving, s);
      CycleMeansCircular(sections[s], sections, open, resolving + {s});
      var p :| Path(sections[s], sections, p) && Returns(resolving + {s}, p);
      ReturnsStep(resolving, s, p);
      assert ([s] + p)[1..] == p && Path(nodes, sections, [s] + p);
    }
  }

  lemma {:induction false} CircularMeansCycle(nodes: seq<Node>, sections: Sections, open: bool, resolving: set<string>, p: seq<string>)
    requires Path(nodes, sections, p) && Returns(resolving, p)
    ensures Substitute(nodes, sections, open, resolving).Cycle?
    decreases |p|
  {
    var s := p[0];
    if s !in resolving {
      assert p == [s] + p[1..] && p[1..] != [];
      ReturnsStep(resolving, s, p[1..]);
      CircularMeansCycle(sections[s], sections, open, resolving + {s}, p[1..]);
    }
    assert Blocked(s, sections, open, resolving);
    CycleIffBlocked(nodes, sections, open, resolving);
  }

  /** A cycle is reported exactly when a section reached from the nodes reaches itself. */
  lemma CycleReportedIff(nodes: seq<Node>, sections: Sections, open: bool)
    ensures Substitute(nodes, sections, open, {}).Cycle? <==> Circular(nodes, sections, {})
  {
    if Substitute(nodes, sections, open, {}).Cycle? {
      CycleMeansCircular(nodes, sections, open, {});
    }
    if Circular(nodes, sections, {}) {
      var p :| Path(nodes, sections, p) && Returns({}, p);
      CircularMeansCycle(nodes, sections, open, {}, p);
    }
  }

  // ---- ... and otherwise the unfolding ends there --------------------------------------------

  lemma {:induction false} DeeperUnfoldsSame(nodes: seq<Node>, sections: Sections, open: bool, depth: nat, deeper: nat)
    requires Unfold(nodes, sections, open, depth).Done? && depth <= deeper
    ensures Unfold(nodes, sections, open, deeper) == Unfold(nodes, sections, open, depth)
    decreases depth, nodes, 1
  {
    if nodes != [] {
      NodeDeeperUnfoldsSame(nodes[0], sections, open, depth, deeper);
      DeeperUnfoldsSame(nodes[1..], sections, open, depth, deeper);
    }
  }

  lemma {:induction false} NodeDeeperUnfoldsSame(item: Node, sections: Sections, open: bool, depth: nat, deeper: nat)
    requires UnfoldNode(item, sections, open, depth).Done? && depth <= deeper
    ensures UnfoldNode(item, sections, open, deeper) == UnfoldNode(item, sections, open, depth)
    decreases depth, item, 0
  {
    if IsYield(item) {
      if item.name in sections {
        DeeperUnfoldsSame(sections[item.name], sections, open, depth - 1, deeper - 1);
      }
    } else {
      match item
      case Block(_, _, _, _, _, _, children) =>
        DeeperUnfoldsSame(children, sections, open, depth, deeper);
      case Control(_, _, _, _, _, children, branches, alternate) =>
        DeeperUnfoldsSame(children, sections, open, depth, deeper);
        if alternate.Alternate? {
          DeeperUnfoldsSame(alternate.nodes, sections, open, depth, deeper);
        }
        BranchDeeperUnfoldsSame(branches, sections, open, depth, deeper);
      case _ =>
    }
  }

  lemma {:induction false} BranchDeeperUnfoldsSame(branches: seq<Branch>, sections: Sections, open: bool, depth: nat, deeper: nat)
    requires UnfoldAll(branches, sections, open, depth).Some? && depth <= deeper
    ensures UnfoldAll(branches, sections, open, deeper) == UnfoldAll(branches, sections, open, depth)
    decreases depth, branches, 0
  {
    if branches != [] {
      DeeperUnfoldsSame(branches[0].nodes, sections, open, depth, deeper);
      BranchDeeperUnfoldsSame(branches[1..], sections, open, depth, deeper);
    }
  }

  predicate TooDeep(s: string, sections: Sections, open: bool, depth: nat)
    requires s in sections
  {
    depth == 0 || Unfold(sections[s], sections, open, depth - 1).Cycle?
  }

  lemma {:induction false} UnfoldStuck(nodes: seq<Node>, sections: Sections, open: bool, depth: nat, s: string)
    requires s in sections && s in Yielded(nodes, sections) && TooDeep(s, sections, open, depth)
    ensures Unfold(nodes, sections, open, depth).Cycle?
    decreases nodes, 1
  {
    if s in YieldedBy(nodes[0], sections) {
      NodeUnfoldStuck(nodes[0], sections, open, depth, s);
    } else {
      UnfoldStuck(nodes[1..], sections, open, depth, s);
    }
  }

  lemma {:induction false} NodeUnfoldStuck(item: Node, sections: Sections, open: bool, depth: nat, s: string)
    requires s in sections && s in YieldedBy(item, sections) && TooDeep(s, sections, open, depth)
    ensures UnfoldNode(item, sections, open, depth).Cycle?
    decreases item, 0
  {
    if !IsYield(item) {
      match item
      case Block(_, _, _, _, _, _, children) =>
        UnfoldStuck(children, sections, open, depth, s);
      case Control(_, _, _, _, _, children, branches, alternate) =>
        if s in Yielded(children, sections) {
          UnfoldStuck(children, sections, open, depth, s);
        } else if alternate.Alternate? && s in Yielded(alternate.nodes, sections) {
          UnfoldStuck(alternate.nodes, sections, open, depth, s);
        } else {
          BranchUnfoldStuck(branches, sections, open, depth, s);
        }
    }
  }

  lemma {:induction false} BranchUnfoldStuck(branches: seq<Branch>, sections: Sections, open: bool, depth: nat, s: string)
    requires s in sections && s in YieldedAll(branches, sections) && TooDeep(s, sections, open, depth)
    ensures UnfoldAll(branches, sections, open, depth).None?
    decreases branches, 0
  {
    if s in Yielded(branches[0].nodes, sections) {
      UnfoldStuck(branches[0].nodes, sections, open, depth, s);
    } else {
      BranchUnfoldStuck(branches[1..], sections, open, depth, s);
    }
  }

  lemma {:induction false} LongPathSticks(nodes: seq<Node>, sections: Sections, open: bool, depth: nat, p: seq<string>)
    requires Path(nodes, sections, p) && |p| > depth
    ensures Unfold(nodes, sections, open, depth).Cycle?
    decreases depth
  {
    if depth > 0 {
      LongPathSticks(sections[p[0]], sections, open, depth - 1, p[1..]);
    }
    UnfoldStuck(nodes, sections, open, depth, p[0]);
  }

  lemma {:induction false} PathParts(nodes: seq<Node>, sections: Sections, p: seq<string>, i: nat)
    requires Path(nodes, sections, p) && i < |p|
    ensures p[i] in sections && Path(sections[p[i]], sections, p[i + 1..])
    decreases i
  {
    if i > 0 {
      PathParts(sections[p[0]], sections, p[1..], i - 1);
      assert p[1..][i - 1] == p[i] && p[1..][i..] == p[i + 1..];
    }
  }

  lemma {:induction false} PathJoins(nodes: seq<Node>, sections: Sections, p: seq<string>, q: seq<string>)
    requires Path(nodes, sections, p) && p != [] && p[|p| - 1] in sections && Path(sections[p[|p| - 1]], sections, q)
    ensures Path(nodes, sections, p + q)
    decreases |p|
  {
    assert (p + q)[0] == p[0] && (p + q)[1..] == p[1..] + q;
    if |p| > 1 {
      PathJoins(sections[p[0]], sections, p[1..], q);
    } else {
      assert p[1..] + q == q;
    }
  }

  /** Going round the cycle again and again gives paths of any length. */
  lemma {:induction false} LongPathExists(nodes: seq<Node>, sections: Sections, p: seq<string>, loop: seq<string>, n: nat) returns (long: seq<string>)
    requires Path(nodes, sections, p) && p != [] && p[|p| - 1] in sections
    requires loop != [] && Path(sections[p[|p| - 1]], sections, loop) && loop[|loop| - 1] == p[|p| - 1]
    ensures Path(nodes, sections, long) && |long| > n
    decreases n - |p|
  {
    if |p| > n {
      long := p;
    } else {
      PathJoins(nodes, sections, p, loop);
      long := LongPathExists(nodes, sections, p + loop, loop, n);
    }
  }

  lemma CircularNeverUnfolds(nodes: seq<Node>, sections: Sections, open: bool, depth: nat)
    requires Circular(nodes, sections, {})
    ensures Unfold(nodes, sections, open, depth).Cycle?
  {
    var p :| Path(nodes, sections, p) && Returns({}, p);
    var last := |p| - 1;
    var i :| 0 <= i < last && p[i] == p[last];
    PathParts(nodes, sections, p, i);
    PathParts(nodes, sections, p, last);
    var long := LongPathExists(nodes, sections, p, p[i + 1..], depth);
    LongPathSticks(nodes, sections, open, depth, long);
  }

  /** Expansion succeeds with a result exactly when plain unfolding, to some depth, ends with it. */
  lemma ExpandsIffUnfolds(nodes: seq<Node>, sections: Sections, open: bool, result: seq<Node>)
    ensures Substitute(nodes, sections, open, {}) == Done(result) <==>
              exists depth: nat :: Unfold(nodes, sections, open, depth) == Done(result)
  {
    var enough: nat := |sections.Keys - {}|;
    if Substitute(nodes, sections, open, {}) == Done(result) {
      ExpansionIsUnfolding(nodes, sections, open, {}, enough);
    }
    if depth: nat :| Unfold(nodes, sections, open, depth) == Done(result) {
      if Substitute(nodes, sections, open, {}).Cycle? {
        CycleReportedIff(nodes, sections, open);
        CircularNeverUnfolds(nodes, sections, open, depth);
      } else {
        var deeper := if depth < enough then enough else depth;
        ExpansionIsUnfolding(nodes, sections, open, {}, deeper);
        DeeperUnfoldsSame(nodes, sections, open, depth, deeper);
      }
    }
  }
}
