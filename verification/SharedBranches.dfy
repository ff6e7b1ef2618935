/** Compiling several views over the same documents: expanding writes into the @elseif branches that documents share. */
module SharedBranches {
  import opened Basics
  import opened Runes
  import opened SourceMap
  import opened ViewNodes
  import opened Yields

  // ---- what one expansion leaves behind -------------------------------------------------------------------

  /** The nodes of a document after they were expanded: every branch holds its expansion, all else is as it was. */
  function Touched(nodes: seq<Node>, sections: Sections, open: bool): seq<Node>
    decreases nodes, 1
  {
    if nodes == [] then [] else [TouchedNode(nodes[0], sections, open)] + Touched(nodes[1..], sections, open)
  }

  function TouchedNode(node: Node, sections: Sections, open: bool): Node
    decreases node, 0
  {
    match node
    case Block(_, _, _, _, _, _, children) => Refilled(node, Touched(children, sections, open))
    case Control(_, _, _, _, _, children, branches, alternate) =>
      Rebuilt(node, Touched(children, sections, open), Written(branches, sections, open),
              if alternate.Alternate? then Touched(alternate.nodes, sections, open) else [])
    case _ => node
  }

  /** The branches with their expansions written into them. */
  function Written(branches: seq<Branch>, sections: Sections, open: bool): seq<Branch>
    decreases branches, 0
  {
    if branches == [] then []
    else
      var r := Substitute(branches[0].nodes, sections, open, {});
      [if r.Done? then branches[0].(nodes := r.nodes) else branches[0]] + Written(branches[1..], sections, open)
  }

  // ---- what is left to expand ---------------------------------------------------------------------------------

  /** No yield in the nodes would be replaced or dropped. */
  predicate Settled(nodes: seq<Node>, names: set<string>, open: bool)
    decreases nodes, 1
  {
    nodes == [] || (SettledNode(nodes[0], names, open) && Settled(nodes[1..], names, open))
  }

  predicate SettledNode(node: Node, names: set<string>, open: bool)
    decreases node, 0
  {
    if IsYield(node) then node.name !in names && !open
    else
      match node
      case Block(_, _, _, _, _, _, children) => Settled(children, names, open)
      case Control(_, _, _, _, _, children, branches, alternate) =>
        && Settled(children, names, open) && SettledBranches(branches, names, open)
        && (alternate.Alternate? ==> Settled(alternate.nodes, names, open))
      case _ => true
  }

  predicate SettledBranches(branches: seq<Branch>, names: set<string>, open: bool)
    decreases branches, 0
  {
    branches == [] || (Settled(branches[0].nodes, names, open) && SettledBranches(branches[1..], names, open))
  }

  lemma {:induction false} SettledJoins(a: seq<Node>, b: seq<Node>, names: set<string>, open: bool)
    requires Settled(a, names, open) && Settled(b, names, open)
    ensures Settled(a + b, names, open)
    decreases |a|
  {
    if a == [] {
      assert a + b == b;
    } else {
      SettledJoins(a[1..], b, names, open);
      assert (a + b)[0] == a[0] && (a + b)[1..] == a[1..] + b;
    }
  }

  lemma OneSettled(node: Node, names: set<string>, open: bool)
    requires SettledNode(node, names, open)
    ensures Settled([node], names, open)
  {
    assert [node][1..] == [];
  }

  /** An expansion is settled. */
  lemma {:induction false} ExpandedIsSettled(nodes: seq<Node>, sections: Sections, open: bool, resolving: set<string>)
    requires Substitute(nodes, sections, open, resolving).Done?
    ensures Settled(Substitute(nodes, sections, open, resolving).nodes, sections.Keys, open)
    decreases |sections.Keys - resolving|, nodes, 2
  {
    if nodes != [] {
      ExpandedNodeIsSettled(nodes[0], sections, open, resolving);
      ExpandedIsSettled(nodes[1..], sections, open, resolving);
      SettledJoins(SubstituteNode(nodes[0], sections, open, resolving).nodes,
                   Substitute(nodes[1..], sections, open, resolving).nodes, sections.Keys, open);
    }
  }

  lemma {:induction false} ExpandedNodeIsSettled(item: Node, sections: Sections, open: bool, resolving: set<string>)
    requires SubstituteNode(item, sections, open, resolving).Done?
    ensures Settled(SubstituteNode(item, sections, open, resolving).nodes, sections.Keys, open)
    decreases |sections.Keys - resolving|, item, 1
  {
    if IsYield(item) {
      if item.name in sections {
        Shrinks(sections.Keys, resolving, item.name);
        ExpandedIsSettled(sections[item.name], sections, open, resolving + {item.name});
      } else if !open {
        OneSettled(item, sections.Keys, open);
      }
    } else {
      var node := ExpandedBodiesAreSettled(item, sections, open, resolving);
      OneSettled(node, sections.Keys, open);
    }
  }

  lemma {:induction false} ExpandedBodiesAreSettled(item: Node, sections: Sections, open: bool, resolving: set<string>)
    returns (node: Node)
    requires SubstituteNode(item, sections, open, resolving).Done? && !IsYield(item)
    ensures SubstituteNode(item, sections, open, resolving).nodes == [node] && SettledNode(node, sections.Keys, open)
    decreases |sections.Keys - resolving|, item, 0
  {
    node := SubstituteNode(item, sections, open, resolving).nodes[0];
    if item.Block? {
      ExpandedIsSettled(item.children, sections, open, resolving);
    } else if item.Control? {
      ExpandedIsSettled(item.children, sections, open, resolving);
      ExpandedBranchesAreSettled(item.branches, sections, open, resolving);
      if item.alternate.Alternate? {
        ExpandedIsSettled(item.alternate.nodes, sections, open, resolving);
      }
    }
  }

  lemma {:induction false} ExpandedBranchesAreSettled(branches: seq<Branch>, sections: Sections, open: bool, resolving: set<string>)
    requires SubstituteAll(branches, sections, open, resolving).Some?
    ensures SettledBranches(SubstituteAll(branches, sections, open, resolving).value, sections.Keys, open)
    decreases |sections.Keys - resolving|, branches, 0
  {
    if branches != [] {
      ExpandedIsSettled(branches[0].nodes, sections, open, resolving);
      ExpandedBranchesAreSettled(branches[1..], sections, open, resolving);
      var all := SubstituteAll(branches, sections, open, resolving).value;
      assert all[1..] == SubstituteAll(branches[1..], sections, open, resolving).value;
    }
  }

  /** And expanding what is settled changes nothing. */
  lemma {:induction false} SettledStays(nodes: seq<Node>, sections: Sections, open: bool, resolving: set<string>)
    requires Settled(nodes, sections.Keys, open)
    ensures Substitute(nodes, sections, open, resolving) == Done(nodes)
    decreases nodes, 1
  {
    if nodes != [] {
      SettledNodeStays(nodes[0], sections, open, resolving);
      SettledStays(nodes[1..], sections, open, resolving);
      assert nodes == [nodes[0]] + nodes[1..];
    }
  }

  lemma {:induction false} SettledNodeStays(item: Node, sections: Sections, open: bool, resolving: set<string>)
    requires SettledNode(item, sections.Keys, open)
    ensures SubstituteNode(item, sections, open, resolving) == Done([item])
    decreases item, 0
  {
    if !IsYield(item) {
      match item
      case Block(_, _, _, _, _, _, children) => SettledStays(children, sections, open, resolving);
      case Control(_, _, _, _, _, children, branches, alternate) =>
        SettledStays(children, sections, open, resolving);
        SettledBranchesStay(branches, sections, open, resolving);
        if alternate.Alternate? {
          SettledStays(alternate.nodes, sections, open, resolving);
        }
      case _ =>
    }
  }

  lemma {:induction false} SettledBranchesStay(branches: seq<Branch>, sections: Sections, open: bool, resolving: set<string>)
    requires SettledBranches(branches, sections.Keys, open)
    ensures SubstituteAll(branches, sections, open, resolving) == Some(branches)
    decreases branches, 0
  {
    if branches != [] {
      SettledStays(branches[0].nodes, sections, open, resolving);
      SettledBranchesStay(branches[1..], sections, open, resolving);
      assert branches == [branches[0]] + branches[1..];
    }
  }

  /** Sections under way only stand in the way. */
  lemma {:induction false} FewerResolving(nodes: seq<Node>, sections: Sections, open: bool, resolving: set<string>, fewer: set<string>)
    requires Substitute(nodes, sections, open, resolving).Done? && fewer <= resolving
    ensures Substitute(nodes, sections, open, fewer) == Substitute(nodes, sections, open, resolving)
    decreases |sections.Keys - resolving|, nodes, 1
  {
    if nodes != [] {
      NodeFewerResolving(nodes[0], sections, open, resolving, fewer);
      FewerResolving(nodes[1..], sections, open, resolving, fewer);
    }
  }

  lemma {:induction false} NodeFewerResolving(item: Node, sections: Sections, open: bool, resolving: set<string>, fewer: set<string>)
    requires SubstituteNode(item, sections, open, resolving).Done? && fewer <= resolving
    ensures SubstituteNode(item, sections, open, fewer) == SubstituteNode(item, sections, open, resolving)
    decreases |sections.Keys - resolving|, item, 0
  {
    if IsYield(item) {
      if item.name in sections {
        Shrinks(sections.Keys, resolving, item.name);
        FewerResolving(sections[item.name], sections, open, resolving + {item.name}, fewer + {item.name});
      }
    } else {
      match item
      case Block(_, _, _, _, _, _, children) => FewerResolving(children, sections, open, resolving, fewer);
      case Control(_, _, _, _, _, children, branches, alternate) =>
        FewerResolving(children, sections, open, resolving, fewer);
        BranchFewerResolving(branches, sections, open, resolving, fewer);
        if alternate.Alternate? {
          FewerResolving(alternate.nodes, sections, open, resolving, fewer);
        }
      case _ =>
    }
  }

  lemma {:induction false} BranchFewerResolving(branches: seq<Branch>, sections: Sections, open: bool, resolving: set<string>,
      fewer: set<string>)
    requires SubstituteAll(branches, sections, open, resolving).Some? && fewer <= resolving
    ensures SubstituteAll(branches, sections, open, fewer) == SubstituteAll(branches, sections, open, resolving)
    decreases |sections.Keys - resolving|, branches, 0
  {
    if branches != [] {
      FewerResolving(branches[0].nodes, sections, open, resolving, fewer);
      BranchFewerResolving(branches[1..], sections, open, resolving, fewer);
    }
  }

  // ---- within one compile it makes no difference ----------------------------------------------------------------

  /** The sections of which some were expanded before. */
  predicate Rewrites(sections: Sections, later: Sections, open: bool) {
    later.Keys == sections.Keys &&
    forall name :: name in sections ==> later[name] == sections[name] || later[name] == Touched(sections[name], sections, open)
  }

  /** With the same sections, the nodes expand as before, whether they and the sections were expanded before or not. */
  lemma {:induction false} SameAgain(nodes: seq<Node>, sections: Sections, later: Sections, open: bool, resolving: set<string>)
    requires Rewrites(sections, later, open) && Substitute(nodes, sections, open, resolving).Done?
    ensures Substitute(nodes, later, open, resolving) == Substitute(nodes, sections, open, resolving)
    ensures Substitute(Touched(nodes, sections, open), later, open, resolving) == Substitute(nodes, sections, open, resolving)
    decreases |sections.Keys - resolving|, nodes, 2
  {
    if nodes != [] {
      NodeSameAgain(nodes[0], sections, later, open, resolving);
      SameAgain(nodes[1..], sections, later, open, resolving);
      var t := Touched(nodes, sections, open);
      assert t[0] == TouchedNode(nodes[0], sections, open) && t[1..] == Touched(nodes[1..], sections, open);
    }
  }

  lemma {:induction false} NodeSameAgain(item: Node, sections: Sections, later: Sections, open: bool, resolving: set<string>)
    requires Rewrites(sections, later, open) && SubstituteNode(item, sections, open, resolving).Done?
    ensures SubstituteNode(item, later, open, resolving) == SubstituteNode(item, sections, open, resolving)
    ensures SubstituteNode(TouchedNode(item, sections, open), later, open, resolving) == SubstituteNode(item, sections, open, resolving)
    decreases |sections.Keys - resolving|, item, 1
  {
    if IsYield(item) {
      if item.name in sections {
        Shrinks(sections.Keys, resolving, item.name);
        SameAgain(sections[item.name], sections, later, open, resolving + {item.name});
      }
    } else if item.Block? {
      SameAgain(item.children, sections, later, open, resolving);
    } else if item.Control? {
      ControlSameAgain(item, sections, later, open, resolving);
    }
  }

  lemma {:induction false} ControlSameAgain(item: Node, sections: Sections, later: Sections, open: bool, resolving: set<string>)
    requires item.Control? && Rewrites(sections, later, open) && SubstituteNode(item, sections, open, resolving).Done?
    ensures SubstituteNode(item, later, open, resolving) == SubstituteNode(item, sections, open, resolving)
    ensures SubstituteNode(TouchedNode(item, sections, open), later, open, resolving) == SubstituteNode(item, sections, open, resolving)
    decreases |sections.Keys - resolving|, item, 0
  {
    SameAgain(item.children, sections, later, open, resolving);
    BranchesSameAgain(item.branches, sections, later, open, resolving);
    if item.alternate.Alternate? {
      SameAgain(item.alternate.nodes, sections, later, open, resolving);
    }
  }

  lemma {:induction false} BranchesSameAgain(branches: seq<Branch>, sections: Sections, later: Sections, open: bool,
      resolving: set<string>)
    requires Rewrites(sections, later, open) && SubstituteAll(branches, sections, open, resolving).Some?
    ensures SubstituteAll(branches, later, open, resolving) == SubstituteAll(branches, sections, open, resolving)
    ensures SubstituteAll(Written(branches, sections, open), later, open, resolving)
         == SubstituteAll(branches, sections, open, resolving)
    decreases |sections.Keys - resolving|, branches, 0
  {
    if branches != [] {
      SameAgain(branches[0].nodes, sections, later, open, resolving);
      FewerResolving(branches[0].nodes, sections, open, resolving, {});
      ExpandedIsSettled(branches[0].nodes, sections, open, {});
      SettledStays(Substitute(branches[0].nodes, sections, open, {}).nodes, later, open, resolving);
      BranchesSameAgain(branches[1..], sections, later, open, resolving);
      var w := Written(branches, sections, open);
      assert w[1..] == Written(branches[1..], sections, open);
    }
  }

  // ---- for other views it may -------------------------------------------------------------------------------------

  /** No branch, at any depth, has a yield that would be replaced or dropped. */
  predicate FixedBranches(nodes: seq<Node>, names: set<string>, open: bool)
    decreases nodes, 1
  {
    nodes == [] || (FixedBranchesIn(nodes[0], names, open) && FixedBranches(nodes[1..], names, open))
  }

  predicate FixedBranchesIn(node: Node, names: set<string>, open: bool)
    decreases node, 0
  {
    match node
    case Block(_, _, _, _, _, _, children) => FixedBranches(children, names, open)
    case Control(_, _, _, _, _, children, branches, alternate) =>
      && FixedBranches(children, names, open) && SettledBranches(branches, names, open)
      && (alternate.Alternate? ==> FixedBranches(alternate.nodes, names, open))
    case _ => true
  }

  /** Then nothing is written. */
  lemma {:induction false} FixedStays(nodes: seq<Node>, sections: Sections, open: bool)
    requires FixedBranches(nodes, sections.Keys, open)
    ensures Touched(nodes, sections, open) == nodes
    decreases nodes, 1
  {
    if nodes != [] {
      FixedNodeStays(nodes[0], sections, open);
      FixedStays(nodes[1..], sections, open);
      assert nodes == [nodes[0]] + nodes[1..];
    }
  }

  lemma {:induction false} FixedNodeStays(node: Node, sections: Sections, open: bool)
    requires FixedBranchesIn(node, sections.Keys, open)
    ensures TouchedNode(node, sections, open) == node
    decreases node, 0
  {
    match node
    case Block(_, _, _, _, _, _, children) => FixedStays(children, sections, open);
    case Control(_, _, _, _, _, children, branches, alternate) =>
      FixedStays(children, sections, open);
      SettledAreWritten(branches, sections, open);
      if alternate.Alternate? {
        FixedStays(alternate.nodes, sections, open);
      }
    case _ =>
  }

  lemma {:induction false} SettledAreWritten(branches: seq<Branch>, sections: Sections, open: bool)
    requires SettledBranches(branches, sections.Keys, open)
    ensures Written(branches, sections, open) == branches
    decreases branches, 0
  {
    if branches != [] {
      SettledStays(branches[0].nodes, sections, open, {});
      SettledAreWritten(branches[1..], sections, open);
      assert branches == [branches[0]] + branches[1..];
    }
  }

  // ---- ... and does, as some view shows -----------------------------------------------------------------------------

  /** Counts the nodes at all depths: `one` for each that is no yield, `k` for each yield of the section. */
  function Size(nodes: seq<Node>, s: string, k: nat, one: nat): nat
    decreases nodes, 1
  {
    if nodes == [] then 0 else SizeOf(nodes[0], s, k, one) + Size(nodes[1..], s, k, one)
  }

  function SizeOf(node: Node, s: string, k: nat, one: nat): nat
    decreases node, 0
  {
    if IsYield(node) then (if node.name == s then k else 0)
    else
      match node
      case Block(_, _, _, _, _, _, children) => one + Size(children, s, k, one)
      case Control(_, _, _, _, _, children, branches, alternate) =>
        one + Size(children, s, k, one) + SizeOfAll(branches, s, k, one) +
        if alternate.Alternate? then Size(alternate.nodes, s, k, one) else 0
      case _ => one
  }

  function SizeOfAll(branches: seq<Branch>, s: string, k: nat, one: nat): nat
    decreases branches, 0
  {
    if branches == [] then 0 else Size(branches[0].nodes, s, k, one) + SizeOfAll(branches[1..], s, k, one)
  }

  lemma {:induction false} SizeJoins(a: seq<Node>, b: seq<Node>, s: string, k: nat, one: nat)
    ensures Size(a + b, s, k, one) == Size(a, s, k, one) + Size(b, s, k, one)
    decreases |a|
  {
    if a == [] {
      assert a + b == b;
    } else {
      SizeJoins(a[1..], b, s, k, one);
      assert (a + b)[0] == a[0] && (a + b)[1..] == a[1..] + b;
    }
  }

  /** Both counts make up the whole. */
  lemma {:induction false} SizeSplits(nodes: seq<Node>, s: string, k: nat)
    ensures Size(nodes, s, k, 1) == Size(nodes, s, 0, 1) + Size(nodes, s, k, 0)
    decreases nodes, 1
  {
    if nodes != [] {
      NodeSizeSplits(nodes[0], s, k);
      SizeSplits(nodes[1..], s, k);
    }
  }

  lemma {:induction false} NodeSizeSplits(node: Node, s: string, k: nat)
    ensures SizeOf(node, s, k, 1) == SizeOf(node, s, 0, 1) + SizeOf(node, s, k, 0)
    decreases node, 0
  {
    match node
    case Block(_, _, _, _, _, _, children) => SizeSplits(children, s, k);
    case Control(_, _, _, _, _, children, branches, alternate) =>
      SizeSplits(children, s, k);
      BranchSizeSplits(branches, s, k);
      if alternate.Alternate? {
        SizeSplits(alternate.nodes, s, k);
      }
    case _ =>
  }

  lemma {:induction false} BranchSizeSplits(branches: seq<Branch>, s: string, k: nat)
    ensures SizeOfAll(branches, s, k, 1) == SizeOfAll(branches, s, 0, 1) + SizeOfAll(branches, s, k, 0)
    decreases branches, 0
  {
    if branches != [] {
      SizeSplits(branches[0].nodes, s, k);
      BranchSizeSplits(branches[1..], s, k);
    }
  }

  /** k texts. */
  function Filler(k: nat): (nodes: seq<Node>)
    ensures |nodes| == k
  {
    if k == 0 then [] else [Text([], Span("", 0, 0, Place(0, 0)))] + Filler(k - 1)
  }

  lemma {:induction false} FillerSize(k: nat, s: string, names: set<string>, open: bool)
    ensures Size(Filler(k), s, 0, 1) == k && Settled(Filler(k), names, open)
  {
    if k > 0 {
      FillerSize(k - 1, s, names, open);
      assert Filler(k)[1..] == Filler(k - 1);
    }
  }

  /** A view whose one section holds k texts: in an open layout it takes the place of each yield. */
  lemma {:induction false} FillingSize(nodes: seq<Node>, s: string, k: nat)
    ensures var r := Substitute(nodes, map[s := Filler(k)], true, {}); r.Done? && Size(r.nodes, s, 0, 1) == Size(nodes, s, k, 1)
    decreases nodes, 1
  {
    if nodes != [] {
      NodeFillingSize(nodes[0], s, k);
      FillingSize(nodes[1..], s, k);
      SizeJoins(SubstituteNode(nodes[0], map[s := Filler(k)], true, {}).nodes,
                Substitute(nodes[1..], map[s := Filler(k)], true, {}).nodes, s, 0, 1);
    }
  }

  lemma {:induction false} NodeFillingSize(node: Node, s: string, k: nat)
    ensures var r := SubstituteNode(node, map[s := Filler(k)], true, {}); r.Done? && Size(r.nodes, s, 0, 1) == SizeOf(node, s, k, 1)
    decreases node, 0
  {
    var sections: Sections := map[s := Filler(k)];
    if IsYield(node) {
      FillerSize(k, s, sections.Keys, true);
      SettledStays(Filler(k), sections, true, {} + {s});
    } else {
      match node
      case Block(_, _, _, _, _, _, children) => FillingSize(children, s, k);
      case Control(_, _, _, _, _, children, branches, alternate) =>
        FillingSize(children, s, k);
        BranchFillingSize(branches, s, k);
        if alternate.Alternate? {
          FillingSize(alternate.nodes, s, k);
        }
      case _ =>
    }
  }

  lemma {:induction false} BranchFillingSize(branches: seq<Branch>, s: string, k: nat)
    ensures var r := SubstituteAll(branches, map[s := Filler(k)], true, {});
      r.Some? && SizeOfAll(r.value, s, 0, 1) == SizeOfAll(branches, s, k, 1)
    decreases branches, 0
  {
    if branches != [] {
      FillingSize(branches[0].nodes, s, k);
      BranchFillingSize(branches[1..], s, k);
      var r := SubstituteAll(branches, map[s := Filler(k)], true, {}).value;
      assert r[1..] == SubstituteAll(branches[1..], map[s := Filler(k)], true, {}).value;
    }
  }

  /** The nodes yield the section, at some depth. */
  predicate Has(nodes: seq<Node>, s: string)
    decreases nodes, 1
  {
    nodes != [] && (HasIn(nodes[0], s) || Has(nodes[1..], s))
  }

  predicate HasIn(node: Node, s: string)
    decreases node, 0
  {
    if IsYield(node) then node.name == s
    else
      match node
      case Block(_, _, _, _, _, _, children) => Has(children, s)
      case Control(_, _, _, _, _, children, branches, alternate) =>
        Has(children, s) || HasAny(branches, s) || (alternate.Alternate? && Has(alternate.nodes, s))
      case _ => false
  }

  predicate HasAny(branches: seq<Branch>, s: string)
    decreases branches, 0
  {
    branches != [] && (Has(branches[0].nodes, s) || HasAny(branches[1..], s))
  }

  /** What is not settled has a yield that is replaced or dropped. */
  lemma {:induction false} UnsettledHas(nodes: seq<Node>, names: set<string>, open: bool) returns (s: string)
    requires !Settled(nodes, names, open)
    ensures Has(nodes, s) && (s in names || open)
    decreases nodes, 1
  {
    if !SettledNode(nodes[0], names, open) {
      s := UnsettledNodeHas(nodes[0], names, open);
    } else {
      s := UnsettledHas(nodes[1..], names, open);
    }
  }

  lemma {:induction false} UnsettledNodeHas(node: Node, names: set<string>, open: bool) returns (s: string)
    requires !SettledNode(node, names, open)
    ensures HasIn(node, s) && (s in names || open)
    decreases node, 0
  {
    if IsYield(node) {
      s := node.name;
    } else if node.Block? {
      s := UnsettledHas(node.children, names, open);
    } else if !Settled(node.children, names, open) {
      s := UnsettledHas(node.children, names, open);
    } else if !SettledBranches(node.branches, names, open) {
      s := UnsettledAnyHas(node.branches, names, open);
    } else {
      s := UnsettledHas(node.alternate.nodes, names, open);
    }
  }

  lemma {:induction false} UnsettledAnyHas(branches: seq<Branch>, names: set<string>, open: bool) returns (s: string)
    requires !SettledBranches(branches, names, open)
    ensures HasAny(branches, s) && (s in names || open)
    decreases branches, 0
  {
    if !Settled(branches[0].nodes, names, open) {
      s := UnsettledHas(branches[0].nodes, names, open);
    } else {
      s := UnsettledAnyHas(branches[1..], names, open);
    }
  }

  lemma {:induction false} HasCounts(nodes: seq<Node>, s: string, k: nat)
    requires Has(nodes, s)
    ensures Size(nodes, s, k, 0) >= k
    decreases nodes, 1
  {
    if HasIn(nodes[0], s) {
      HasInCounts(nodes[0], s, k);
    } else {
      HasCounts(nodes[1..], s, k);
    }
  }

  lemma {:induction false} HasInCounts(node: Node, s: string, k: nat)
    requires HasIn(node, s)
    ensures SizeOf(node, s, k, 0) >= k
    decreases node, 0
  {
    if !IsYield(node) {
      if node.Block? || Has(node.children, s) {
        HasCounts(node.children, s, k);
      } else if HasAny(node.branches, s) {
        HasAnyCounts(node.branches, s, k);
      } else {
        HasCounts(node.alternate.nodes, s, k);
      }
    }
  }

  lemma {:induction false} HasAnyCounts(branches: seq<Branch>, s: string, k: nat)
    requires HasAny(branches, s)
    ensures SizeOfAll(branches, s, k, 0) >= k
    decreases branches, 0
  {
    if Has(branches[0].nodes, s) {
      HasCounts(branches[0].nodes, s, k);
    } else {
      HasAnyCounts(branches[1..], s, k);
    }
  }

  lemma {:induction false} SettledHasNone(nodes: seq<Node>, names: set<string>, open: bool, s: string, k: nat)
    requires Settled(nodes, names, open) && (s in names || open)
    ensures Size(nodes, s, k, 0) == 0
    decreases nodes, 1
  {
    if nodes != [] {
      SettledNodeHasNone(nodes[0], names, open, s, k);
      SettledHasNone(nodes[1..], names, open, s, k);
    }
  }

  lemma {:induction false} SettledNodeHasNone(node: Node, names: set<string>, open: bool, s: string, k: nat)
    requires SettledNode(node, names, open) && (s in names || open)
    ensures SizeOf(node, s, k, 0) == 0
    decreases node, 0
  {
    if !IsYield(node) {
      match node
      case Block(_, _, _, _, _, _, children) => SettledHasNone(children, names, open, s, k);
      case Control(_, _, _, _, _, children, branches, alternate) =>
        SettledHasNone(children, names, open, s, k);
        SettledAnyHasNone(branches, names, open, s, k);
        if alternate.Alternate? {
          SettledHasNone(alternate.nodes, names, open, s, k);
        }
      case _ =>
    }
  }

  lemma {:induction false} SettledAnyHasNone(branches: seq<Branch>, names: set<string>, open: bool, s: string, k: nat)
    requires SettledBranches(branches, names, open) && (s in names || open)
    ensures SizeOfAll(branches, s, k, 0) == 0
    decreases branches, 0
  {
    if branches != [] {
      SettledHasNone(branches[0].nodes, names, open, s, k);
      SettledAnyHasNone(branches[1..], names, open, s, k);
    }
  }

  /** Some branch, at some depth, yields the section. */
  predicate BranchHas(nodes: seq<Node>, s: string)
    decreases nodes, 1
  {
    nodes != [] && (BranchHasIn(nodes[0], s) || BranchHas(nodes[1..], s))
  }

  predicate BranchHasIn(node: Node, s: string)
    decreases node, 0
  {
    match node
    case Block(_, _, _, _, _, _, children) => BranchHas(children, s)
    case Control(_, _, _, _, _, children, branches, alternate) =>
      BranchHas(children, s) || HasAny(branches, s) || (alternate.Alternate? && BranchHas(alternate.nodes, s))
    case _ => false
  }

  lemma {:induction false} UnfixedHas(nodes: seq<Node>, names: set<string>, open: bool) returns (s: string)
    requires !FixedBranches(nodes, names, open)
    ensures BranchHas(nodes, s) && (s in names || open)
    decreases nodes, 1
  {
    if !FixedBranchesIn(nodes[0], names, open) {
      s := UnfixedNodeHas(nodes[0], names, open);
    } else {
      s := UnfixedHas(nodes[1..], names, open);
    }
  }

  lemma {:induction false} UnfixedNodeHas(node: Node, names: set<string>, open: bool) returns (s: string)
    requires !FixedBranchesIn(node, names, open)
    ensures BranchHasIn(node, s) && (s in names || open)
    decreases node, 0
  {
    if node.Block? || !FixedBranches(node.children, names, open) {
      s := UnfixedHas(node.children, names, open);
    } else if !SettledBranches(node.branches, names, open) {
      s := UnsettledAnyHas(node.branches, names, open);
    } else {
      s := UnfixedHas(node.alternate.nodes, names, open);
    }
  }

  /** Writing takes the yields out of the branches, and puts none elsewhere. */
  lemma {:induction false} TouchedCounts(nodes: seq<Node>, sections: Sections, open: bool, s: string, k: nat)
    requires Substitute(nodes, sections, open, {}).Done? && (s in sections || open)
    ensures Size(Touched(nodes, sections, open), s, k, 0) + (if BranchHas(nodes, s) then k else 0) <= Size(nodes, s, k, 0)
    decreases nodes, 2
  {
    if nodes != [] {
      TouchedNodeCounts(nodes[0], sections, open, s, k);
      TouchedCounts(nodes[1..], sections, open, s, k);
      var t := Touched(nodes, sections, open);
      assert t[0] == TouchedNode(nodes[0], sections, open) && t[1..] == Touched(nodes[1..], sections, open);
    }
  }

  lemma {:induction false} TouchedNodeCounts(node: Node, sections: Sections, open: bool, s: string, k: nat)
    requires SubstituteNode(node, sections, open, {}).Done? && (s in sections || open)
    ensures SizeOf(TouchedNode(node, sections, open), s, k, 0) + (if BranchHasIn(node, s) then k else 0) <= SizeOf(node, s, k, 0)
    decreases node, 1
  {
    if !IsYield(node) {
      match node
      case Block(_, _, _, _, _, _, children) => TouchedCounts(children, sections, open, s, k);
      case Control(_, _, _, _, _, _, _, _) => TouchedControlCounts(node, sections, open, s, k);
      case _ =>
    }
  }

  lemma {:induction false} TouchedControlCounts(node: Node, sections: Sections, open: bool, s: string, k: nat)
    requires node.Control? && SubstituteNode(node, sections, open, {}).Done? && (s in sections || open)
    ensures SizeOf(TouchedNode(node, sections, open), s, k, 0) + (if BranchHasIn(node, s) then k else 0) <= SizeOf(node, s, k, 0)
    decreases node, 0
  {
    TouchedCounts(node.children, sections, open, s, k);
    WrittenCounts(node.branches, sections, open, s, k);
    if HasAny(node.branches, s) {
      HasAnyCounts(node.branches, s, k);
    }
    if node.alternate.Alternate? {
      TouchedCounts(node.alternate.nodes, sections, open, s, k);
    }
  }

  lemma {:induction false} WrittenCounts(branches: seq<Branch>, sections: Sections, open: bool, s: string, k: nat)
    requires SubstituteAll(branches, sections, open, {}).Some? && (s in sections || open)
    ensures SizeOfAll(Written(branches, sections, open), s, k, 0) == 0
    decreases branches, 0
  {
    if branches != [] {
      ExpandedIsSettled(branches[0].nodes, sections, open, {});
      SettledHasNone(Substitute(branches[0].nodes, sections, open, {}).nodes, sections.Keys, open, s, k);
      WrittenCounts(branches[1..], sections, open, s, k);
      var w := Written(branches, sections, open);
      assert w[1..] == Written(branches[1..], sections, open);
    }
  }

  /** After one view was expanded over a layout, every other view is expanded as over the fresh layout. */
  ghost predicate ServesAll(nodes: seq<Node>, sections: Sections, open: bool) {
    forall other: Sections, dropping: bool ::
      Substitute(Touched(nodes, sections, open), other, dropping, {}) == Substitute(nodes, other, dropping, {})
  }

  /** Exactly when no branch of the layout has a yield that the first view replaced or dropped. */
  lemma ServesAllIff(nodes: seq<Node>, sections: Sections, open: bool)
    requires Substitute(nodes, sections, open, {}).Done?
    ensures ServesAll(nodes, sections, open) <==> FixedBranches(nodes, sections.Keys, open)
  {
    if FixedBranches(nodes, sections.Keys, open) {
      FixedStays(nodes, sections, open);
    } else {
      var s := UnfixedHas(nodes, sections.Keys, open);
      var touched := Touched(nodes, sections, open);
      var k := Size(touched, s, 0, 1) + 1;
      TouchedCounts(nodes, sections, open, s, k);
      SizeSplits(touched, s, k);
      SizeSplits(nodes, s, k);
      FillingSize(touched, s, k);
      FillingSize(nodes, s, k);
      assert Substitute(touched, map[s := Filler(k)], true, {}) != Substitute(nodes, map[s := Filler(k)], true, {});
    }
  }
}
