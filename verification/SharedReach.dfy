/** Which branches a view rewrites for the views after it: those of its root layout, and those of the sections it has come
    through, in the documents that define them. */
module SharedReach {
  import opened ViewNodes
  import opened Yields
  import opened Layouts
  import opened SharedBranches
  import opened SharedDocuments
  import opened ViewCompile
  import opened ViewSite

  // ---- the sections a view comes through ---------------------------------------------------------------------

  /** The section is one of these, or is reached from one of them. */
  ghost predicate ReachedFrom(names: set<string>, sections: Sections, resolving: set<string>, t: string) {
    exists s :: s in names && s in sections && s !in resolving && (t == s || t in Reached(sections[s], sections, resolving + {s}))
  }

  lemma {:induction false} ReachedStep(nodes: seq<Node>, sections: Sections, resolving: set<string>, t: string)
    ensures t in Reached(nodes, sections, resolving) <==> ReachedFrom(Yielded(nodes, sections), sections, resolving, t)
    decreases nodes, 1
  {
    if nodes != [] {
      ReachedByStep(nodes[0], sections, resolving, t);
      ReachedStep(nodes[1..], sections, resolving, t);
    }
  }

  lemma {:induction false} ReachedByStep(item: Node, sections: Sections, resolving: set<string>, t: string)
    ensures t in ReachedBy(item, sections, resolving) <==> ReachedFrom(YieldedBy(item, sections), sections, resolving, t)
    decreases item, 0
  {
    if !IsYield(item) {
      match item
      case Block(_, _, _, _, _, _, children) => ReachedStep(children, sections, resolving, t);
      case Control(_, _, _, _, _, children, branches, alternate) =>
        ReachedStep(children, sections, resolving, t);
        ReachedByAnyStep(branches, sections, resolving, t);
        if alternate.Alternate? {
          ReachedStep(alternate.nodes, sections, resolving, t);
        }
      case _ =>
    }
  }

  lemma {:induction false} ReachedByAnyStep(branches: seq<Branch>, sections: Sections, resolving: set<string>, t: string)
    ensures t in ReachedByAny(branches, sections, resolving) <==> ReachedFrom(YieldedAll(branches, sections), sections, resolving, t)
    decreases branches, 0
  {
    if branches != [] {
      ReachedStep(branches[0].nodes, sections, resolving, t);
      ReachedByAnyStep(branches[1..], sections, resolving, t);
    }
  }

  /** A path of sections, each yielded inside the one before, leads to t. */
  predicate LeadsTo(nodes: seq<Node>, sections: Sections, p: seq<string>, t: string) {
    p != [] && Path(nodes, sections, p) && p[|p| - 1] == t
  }

  ghost predicate Reachable(nodes: seq<Node>, sections: Sections, t: string) {
    exists p :: LeadsTo(nodes, sections, p, t)
  }

  lemma {:induction false} PathReaches(nodes: seq<Node>, sections: Sections, open: bool, resolving: set<string>, p: seq<string>, t: string)
    requires LeadsTo(nodes, sections, p, t) && Substitute(nodes, sections, open, resolving).Done?
    ensures t in Reached(nodes, sections, resolving)
    decreases |p|
  {
    var s := p[0];
    CycleIffBlocked(nodes, sections, open, resolving);
    assert !Blocked(s, sections, open, resolving);
    if |p| > 1 {
      PathReaches(sections[s], sections, open, resolving + {s}, p[1..], t);
    }
    ReachedStep(nodes, sections, resolving, t);
  }

  lemma {:induction false} ReachedHasPath(nodes: seq<Node>, sections: Sections, resolving: set<string>, t: string) returns (p: seq<string>)
    requires t in Reached(nodes, sections, resolving)
    ensures LeadsTo(nodes, sections, p, t)
    decreases |sections.Keys - resolving|
  {
    ReachedStep(nodes, sections, resolving, t);
    var s :| s in Yielded(nodes, sections) && s in sections && s !in resolving
      && (t == s || t in Reached(sections[s], sections, resolving + {s}));
    if t == s {
      p := [s];
      assert p[1..] == [];
    } else {
      Shrinks(sections.Keys, resolving, s);
      var rest := ReachedHasPath(sections[s], sections, resolving + {s}, t);
      p := [s] + rest;
      assert p[1..] == rest;
    }
  }

  /** Without a cycle, the sections that are expanded are those that some path leads to. */
  lemma ReachedIff(nodes: seq<Node>, sections: Sections, open: bool, t: string)
    requires Substitute(nodes, sections, open, {}).Done?
    ensures t in Reached(nodes, sections, {}) <==> Reachable(nodes, sections, t)
  {
    if t in Reached(nodes, sections, {}) {
      var p := ReachedHasPath(nodes, sections, {}, t);
    }
    if p :| LeadsTo(nodes, sections, p, t) {
      PathReaches(nodes, sections, open, {}, p, t);
    }
  }

  // ---- the documents that define them --------------------------------------------------------------------------

  function OwnersAlong(documents: Documents, chain: seq<string>, owners: Owners): Owners
    requires Walk(documents, chain)
  {
    if chain == [] then owners else OwnersAlong(documents, chain[1..], Owned(documents[chain[0]], chain[0]) + owners)
  }

  /** The owner of a section is the document closest to the view that defines it. */
  lemma {:induction false} OwnersAre(documents: Documents, chain: seq<string>, owners: Owners, s: string)
    requires Walk(documents, chain)
    ensures s in owners ==> s in OwnersAlong(documents, chain, owners) && OwnersAlong(documents, chain, owners)[s] == owners[s]
    ensures s !in owners && s in OwnersAlong(documents, chain, owners) ==>
      exists i: nat :: ChildMost(documents, chain, s, i) && OwnersAlong(documents, chain, owners)[s] == chain[i]
    ensures s !in owners && (exists i: nat :: ChildMost(documents, chain, s, i)) ==> s in OwnersAlong(documents, chain, owners)
    decreases |chain|
  {
    if chain != [] {
      var own := Owned(documents[chain[0]], chain[0]);
      OwnersAre(documents, chain[1..], own + owners, s);
      if s !in owners {
        if s in documents[chain[0]].sections {
          assert ChildMost(documents, chain, s, 0);
        } else {
          if i: nat :| ChildMost(documents, chain[1..], s, i) {
            assert ChildMost(documents, chain, s, i + 1);
          }
          if i: nat :| ChildMost(documents, chain, s, i) {
            assert ChildMost(documents, chain[1..], s, i - 1);
          }
        }
      }
    }
  }

  /** The documents after the end of the chain was expanded. */
  function AfterRoot(documents: Documents, chain: seq<string>, sections: Sections, owners: Owners, open: bool): Documents
    requires IsChain(documents, chain)
  {
    var root := chain[|chain| - 1];
    var reached := Reached(documents[root].extra, sections, {});
    map d | d in documents :: TouchedDocument(documents[d], d, root, sections, owners, reached, open)
  }

  lemma {:induction false} AfterFollows(documents: Documents, chain: seq<string>, inherited: Sections, owners: Owners, stack: seq<string>,
      open: bool)
    requires IsChain(documents, chain) && Simple(stack, chain)
    ensures After(documents, chain[0], inherited, owners, stack, open)
         == AfterRoot(documents, chain, Gathered(documents, chain, inherited), OwnersAlong(documents, chain, owners), open)
    decreases |chain|
  {
    var rest := chain[1..];
    var sections := documents[chain[0]].sections + inherited;
    var owned := Owned(documents[chain[0]], chain[0]) + owners;
    if rest != [] {
      RestIsChain(documents, chain);
      RestIsSimple(stack, chain);
      AfterFollows(documents, rest, sections, owned, stack + [chain[0]], open);
      assert rest[|rest| - 1] == chain[|chain| - 1];
    } else {
      assert Gathered(documents, chain, inherited) == Gathered(documents, [], sections) == sections;
      assert OwnersAlong(documents, chain, owners) == OwnersAlong(documents, [], owned) == owned;
    }
  }

  /** The view comes through this section of the document: some path of yields leads to it, and no document closer to the view
      defines it. */
  ghost predicate ComesThrough(documents: Documents, chain: seq<string>, sections: Sections, d: string, s: string)
    requires IsChain(documents, chain)
  {
    && Reachable(documents[chain[|chain| - 1]].extra, sections, s)
    && exists i: nat :: ChildMost(documents, chain, s, i) && chain[i] == d
  }

  /** What a view leaves of a document: the nodes of the root, and the sections the view comes through, with their branches
      expanded; all else as it was. */
  ghost predicate Leaves(documents: Documents, chain: seq<string>, sections: Sections, open: bool, later: Documents, d: string)
    requires IsChain(documents, chain) && d in documents
  {
    var doc := documents[d];
    && later.Keys == documents.Keys
    && later[d].layout == doc.layout && later[d].component == doc.component && later[d].body == doc.body
    && later[d].extra == (if d == chain[|chain| - 1] then Touched(doc.extra, sections, open) else doc.extra)
    && later[d].sections.Keys == doc.sections.Keys
    && forall s :: s in doc.sections ==>
         later[d].sections[s] == if ComesThrough(documents, chain, sections, d, s) then Touched(doc.sections[s], sections, open)
                                 else doc.sections[s]
  }

  lemma ViewLeaves(documents: Documents, chain: seq<string>, sections: Sections, open: bool, d: string)
    requires IsChain(documents, chain) && Closest(documents, chain, map[], sections) && d in documents
    requires Resolve(documents, chain[0], map[], [], open).Resolved?
    ensures Leaves(documents, chain, sections, open, After(documents, chain[0], map[], map[], [], open), d)
  {
    forall i, j | 0 <= i < j < |chain|
      ensures chain[i] != chain[j]
    {
      ChainIsSimple(documents, chain, i, j);
    }
    GatheredIsClosest(documents, chain, map[]);
    ClosestIsOne(documents, chain, map[], sections, Gathered(documents, chain, map[]));
    AfterFollows(documents, chain, map[], map[], [], open);
    ViewResolves(documents, chain, open);
    forall s | s in documents[d].sections
      ensures var owners := OwnersAlong(documents, chain, map[]);
        ComesThrough(documents, chain, sections, d, s) <==>
          s in Reached(documents[chain[|chain| - 1]].extra, sections, {}) && s in owners && owners[s] == d
    {
      ReachedIff(documents[chain[|chain| - 1]].extra, sections, open, s);
      OwnersAre(documents, chain, map[], s);
    }
  }

  /** Every view of a site is compiled over the documents that the view before it left, and leaves them so. */
  lemma SiteLeaves(texts: Generator, s: State, before: seq<string>, chain: seq<string>, sections: Sections, depth: nat, d: string)
    requires var documents := AfterViews(texts, s, before, depth).documents;
      && IsChain(documents, chain) && Closest(documents, chain, map[], sections) && d in documents && IsPage(documents, chain[0])
      && Resolve(documents, chain[0], map[], [], IsOpen(documents, chain[0])).Resolved?
    ensures var documents := AfterViews(texts, s, before, depth).documents;
      Leaves(documents, chain, sections, IsOpen(documents, chain[0]), AfterViews(texts, s, before + [chain[0]], depth).documents, d)
  {
    var documents := AfterViews(texts, s, before, depth).documents;
    assert (before + [chain[0]])[..|before|] == before;
    ViewLeaves(documents, chain, sections, IsOpen(documents, chain[0]), d);
  }
}
