/** Resolving keeps nodes fit to be copied: sections and layouts only move them. */
module ViewResolve {
  import opened SourceMap
  import opened ViewNodes
  import opened ViewCompile
  import opened Yields
  import opened Layouts
  import opened ViewOrganize
  import opened SharedBranches
  import opened SharedDocuments

  predicate SoundSections(sources: Sources, sections: Sections) {
    forall name :: name in sections ==> AllSound(sources, sections[name])
  }

  ghost predicate SoundDocuments(sources: Sources, documents: Documents) {
    forall name :: name in documents ==> SoundDocument(sources, documents[name])
  }

  lemma SoundJoins(sources: Sources, a: seq<Node>, b: seq<Node>)
    requires AllSound(sources, a) && AllSound(sources, b)
    ensures AllSound(sources, a + b)
  {
  }

  lemma {:induction false} SubstitutedIsSound(sources: Sources, nodes: seq<Node>, sections: Sections, open: bool, resolving: set<string>)
    requires AllSound(sources, nodes) && SoundSections(sources, sections)
    requires Substitute(nodes, sections, open, resolving).Done?
    ensures AllSound(sources, Substitute(nodes, sections, open, resolving).nodes)
    decreases |sections.Keys - resolving|, nodes, 2
  {
    if nodes != [] {
      SubstitutedNodeIsSound(sources, nodes[0], sections, open, resolving);
      SubstitutedIsSound(sources, nodes[1..], sections, open, resolving);
      SoundJoins(sources, SubstituteNode(nodes[0], sections, open, resolving).nodes,
                 Substitute(nodes[1..], sections, open, resolving).nodes);
    }
  }

  lemma {:induction false} SubstitutedNodeIsSound(sources: Sources, item: Node, sections: Sections, open: bool, resolving: set<string>)
    requires Sound(sources, item) && SoundSections(sources, sections)
    requires SubstituteNode(item, sections, open, resolving).Done?
    ensures AllSound(sources, SubstituteNode(item, sections, open, resolving).nodes)
    decreases |sections.Keys - resolving|, item, 1
  {
    if IsYield(item) {
      if item.name in sections {
        Shrinks(sections.Keys, resolving, item.name);
        SubstitutedIsSound(sources, sections[item.name], sections, open, resolving + {item.name});
      }
    } else if item.Block? {
      SubstitutedIsSound(sources, item.children, sections, open, resolving);
    } else if item.Control? {
      SubstitutedControlIsSound(sources, item, sections, open, resolving);
    }
  }

  lemma {:induction false} SubstitutedControlIsSound(sources: Sources, item: Node, sections: Sections, open: bool, resolving: set<string>)
    requires item.Control? && Sound(sources, item) && SoundSections(sources, sections)
    requires SubstituteNode(item, sections, open, resolving).Done?
    ensures AllSound(sources, SubstituteNode(item, sections, open, resolving).nodes)
    decreases |sections.Keys - resolving|, item, 0
  {
    SubstitutedIsSound(sources, item.children, sections, open, resolving);
    SubstitutedBranchesAreSound(sources, item.branches, sections, open, resolving);
    if item.alternate.Alternate? {
      SubstitutedIsSound(sources, item.alternate.nodes, sections, open, resolving);
    }
  }

  predicate SoundBranches(sources: Sources, branches: seq<Branch>) {
    forall i :: 0 <= i < |branches| ==> AllSound(sources, branches[i].nodes)
  }

  lemma {:induction false} SubstitutedBranchesAreSound(sources: Sources, branches: seq<Branch>, sections: Sections, open: bool,
      resolving: set<string>)
    requires SoundBranches(sources, branches) && SoundSections(sources, sections)
    requires SubstituteAll(branches, sections, open, resolving).Some?
    ensures SoundBranches(sources, SubstituteAll(branches, sections, open, resolving).value)
    decreases |sections.Keys - resolving|, branches, 0
  {
    if branches != [] {
      SubstitutedIsSound(sources, branches[0].nodes, sections, open, resolving);
      SubstitutedBranchesAreSound(sources, branches[1..], sections, open, resolving);
    }
  }

  lemma {:induction false} PushesAreSound(sources: Sources, nodes: seq<Node>)
    requires AllSound(sources, nodes)
    ensures AllSound(sources, Pushes(nodes))
  {
    if nodes != [] {
      PushesAreSound(sources, nodes[1..]);
    }
  }

  /** What a view of sound documents resolves to is sound, so it can be compiled. */
  lemma {:induction false} ResolvedIsSound(sources: Sources, documents: Documents, name: string, inherited: Sections, stack: seq<string>,
      open: bool)
    requires SoundDocuments(sources, documents) && SoundSections(sources, inherited)
    requires Resolve(documents, name, inherited, stack, open).Resolved?
    ensures AllSound(sources, Resolve(documents, name, inherited, stack, open).nodes)
    decreases |documents.Keys - Entered(stack)|
  {
    var doc := documents[name];
    assert SoundDocument(sources, doc);
    var sections := doc.sections + inherited;
    if doc.layout == "" {
      SubstitutedIsSound(sources, doc.extra, sections, open, {});
    } else {
      EnteringShrinks(documents, stack, name);
      ResolvedIsSound(sources, documents, doc.layout, sections, stack + [name], open);
      PushesAreSound(sources, doc.extra);
      SoundJoins(sources, Pushes(doc.extra), Resolve(documents, doc.layout, sections, stack + [name], open).nodes);
    }
  }

  // ---- the documents that views leave behind -------------------------------------------------------------------

  lemma {:induction false} TouchedIsSound(sources: Sources, nodes: seq<Node>, sections: Sections, open: bool)
    requires AllSound(sources, nodes) && SoundSections(sources, sections)
    ensures AllSound(sources, Touched(nodes, sections, open))
    decreases nodes, 1
  {
    if nodes != [] {
      TouchedNodeIsSound(sources, nodes[0], sections, open);
      TouchedIsSound(sources, nodes[1..], sections, open);
      SoundJoins(sources, [TouchedNode(nodes[0], sections, open)], Touched(nodes[1..], sections, open));
    }
  }

  lemma {:induction false} TouchedNodeIsSound(sources: Sources, node: Node, sections: Sections, open: bool)
    requires Sound(sources, node) && SoundSections(sources, sections)
    ensures Sound(sources, TouchedNode(node, sections, open))
    decreases node, 0
  {
    match node
    case Block(_, _, _, _, _, _, children) => TouchedIsSound(sources, children, sections, open);
    case Control(_, _, _, _, _, children, branches, alternate) =>
      TouchedIsSound(sources, children, sections, open);
      WrittenIsSound(sources, branches, sections, open);
      if alternate.Alternate? {
        TouchedIsSound(sources, alternate.nodes, sections, open);
      }
    case _ =>
  }

  lemma {:induction false} WrittenIsSound(sources: Sources, branches: seq<Branch>, sections: Sections, open: bool)
    requires SoundBranches(sources, branches) && SoundSections(sources, sections)
    ensures SoundBranches(sources, Written(branches, sections, open))
    decreases branches, 0
  {
    if branches != [] {
      if Substitute(branches[0].nodes, sections, open, {}).Done? {
        SubstitutedIsSound(sources, branches[0].nodes, sections, open, {});
      }
      WrittenIsSound(sources, branches[1..], sections, open);
    }
  }

  lemma TouchedDocumentIsSound(sources: Sources, doc: Document, name: string, root: string, sections: Sections, owners: Owners,
      reached: set<string>, open: bool)
    requires SoundDocument(sources, doc) && SoundSections(sources, sections)
    ensures SoundDocument(sources, TouchedDocument(doc, name, root, sections, owners, reached, open))
  {
    TouchedIsSound(sources, doc.extra, sections, open);
    forall s | s in doc.sections
      ensures AllSound(sources, Touched(doc.sections[s], sections, open))
    {
      TouchedIsSound(sources, doc.sections[s], sections, open);
    }
  }

  /** A view leaves sound documents. */
  lemma {:induction false} AfterIsSound(sources: Sources, documents: Documents, name: string, inherited: Sections, owners: Owners,
      stack: seq<string>, open: bool)
    requires SoundDocuments(sources, documents) && SoundSections(sources, inherited)
    ensures SoundDocuments(sources, After(documents, name, inherited, owners, stack, open))
    decreases |documents.Keys - Entered(stack)|
  {
    if name in documents && name !in stack {
      var doc := documents[name];
      assert SoundDocument(sources, doc);
      var sections := doc.sections + inherited;
      var owned := Owned(doc, name) + owners;
      if doc.layout == "" {
        var reached := Reached(doc.extra, sections, {});
        forall d | d in documents
          ensures SoundDocument(sources, TouchedDocument(documents[d], d, name, sections, owned, reached, open))
        {
          TouchedDocumentIsSound(sources, documents[d], d, name, sections, owned, reached, open);
        }
      } else if doc.layout in documents && !documents[doc.layout].component {
        EnteringShrinks(documents, stack, name);
        AfterIsSound(sources, documents, doc.layout, sections, owned, stack + [name], open);
      }
    }
  }
}
