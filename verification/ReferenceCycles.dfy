/** The check of the model generator that foreign keys can be created table by table. */
module ReferenceCycles {
  import opened Basics

  /** A field of a model, with the model it refers to. */
  datatype Field = Field(reference: Option<string>)

  datatype Model = Model(name: string, fields: seq<Field>)

  datatype Colour = White | Grey | Black

  type Edges = map<string, seq<string>>

  // ---- the graph -----------------------------------------------------------------------------

  predicate RefersTo(model: Model, target: string) {
    exists i :: 0 <= i < |model.fields| && model.fields[i].reference == Some(target)
  }

  /** Some model named `a` refers to another one named `b`. */
  predicate Edge(models: seq<Model>, a: string, b: string) {
    a != b && exists i :: 0 <= i < |models| && models[i].name == a && RefersTo(models[i], b)
  }

  /** Names, each referring to the next, the last being the first again. */
  predicate IsCycle(models: seq<Model>, c: seq<string>) {
    && |c| > 1
    && c[0] == c[|c| - 1]
    && forall i :: 0 < i < |c| ==> Edge(models, c[i - 1], c[i])
  }

  /** Every model once, after all the others it refers to. */
  ghost predicate CreationOrder(models: seq<Model>, order: seq<string>) {
    && (forall i :: 0 <= i < |models| ==> models[i].name in order)
    && (forall i, j :: 0 <= i < j < |order| ==> order[i] != order[j])
    && (forall i, b :: 0 <= i < |order| && Edge(models, order[i], b) ==> b in order[..i])
  }

  lemma {:induction false} StepsGoDown(models: seq<Model>, order: seq<string>, c: seq<string>, first: nat, k: nat)
    requires CreationOrder(models, order) && IsCycle(models, c) && k < |c|
    requires first < |order| && order[first] == c[0]
    ensures exists i :: 0 <= i <= first - k && order[i] == c[k]
  {
    if k > 0 {
      StepsGoDown(models, order, c, first, k - 1);
      var i :| 0 <= i <= first - (k - 1) && order[i] == c[k - 1];
      assert Edge(models, order[i], c[k]);
      assert c[k] in order[..i];
    }
  }

  /** A creation order rules out every cycle. */
  lemma OrderedHasNoCycle(models: seq<Model>, order: seq<string>, c: seq<string>)
    requires CreationOrder(models, order)
    ensures !IsCycle(models, c)
  {
    if IsCycle(models, c) {
      assert Edge(models, c[1 - 1], c[1]);
      var first :| 0 <= first < |order| && order[first] == c[0];
      StepsGoDown(models, order, c, first, |c| - 1);
    }
  }

  // ---- the edge lists --------------------------------------------------------------------------

  function Targets(edges: Edges, name: string): seq<string> {
    if name in edges then edges[name] else []
  }

  /** Edges from model to model as the first loop lists them. */
  method BuildEdges(models: seq<Model>) returns (edges: Edges)
    ensures forall a, b :: b in Targets(edges, a) <==> Edge(models, a, b)
  {
    edges := map[];
    for i := 0 to |models|
      invariant forall a, b :: b in Targets(edges, a) <==> Edge(models[..i], a, b)
    {
      var list := AppendTargets(Targets(edges, models[i].name), models[i]);
      ghost var before := edges;
      edges := edges[models[i].name := list];
      NextModel(models, i);
      forall a, b
        ensures b in Targets(edges, a) <==> Edge(models[..i + 1], a, b)
      {
        assert b in Targets(before, a) <==> Edge(models[..i], a, b);
      }
    }
    assert models[..|models|] == models;
  }

  /** Adds what the model refers to: never itself, and no name twice. */
  method AppendTargets(known: seq<string>, model: Model) returns (list: seq<string>)
    ensures forall b :: b in list <==> b in known || (b != model.name && RefersTo(model, b))
    ensures known <= list && forall i, j :: |known| <= i < j < |list| ==> list[i] != list[j]
  {
    list := known;
    var seen := {};
    for j := 0 to |model.fields|
      invariant known <= list && forall b :: b in seen <==> b in list[|known|..]
      invariant forall i, k :: |known| <= i < k < |list| ==> list[i] != list[k]
      invariant forall b :: b in list <==>
          b in known || (b != model.name && RefersTo(Model(model.name, model.fields[..j]), b))
    {
      var reference := model.fields[j].reference;
      NextField(model, j);
      if reference.Some? && reference.value != model.name && reference.value !in seen {
        assert (list + [reference.value])[|known|..] == list[|known|..] + [reference.value];
        list := list + [reference.value];
        seen := seen + {reference.value};
      }
    }
    assert model.fields[..|model.fields|] == model.fields && Model(model.name, model.fields) == model;
  }

  lemma NextField(model: Model, j: nat)
    requires j < |model.fields|
    ensures forall b :: RefersTo(Model(model.name, model.fields[..j + 1]), b) <==>
        RefersTo(Model(model.name, model.fields[..j]), b) || model.fields[j].reference == Some(b)
  {
    var more, fewer := model.fields[..j + 1], model.fields[..j];
    forall b
      ensures RefersTo(Model(model.name, more), b) <==>
          RefersTo(Model(model.name, fewer), b) || model.fields[j].reference == Some(b)
    {
      if i :| 0 <= i < |fewer| && fewer[i].reference == Some(b) {
        assert more[i] == fewer[i];
      }
      if model.fields[j].reference == Some(b) {
        assert more[j].reference == Some(b);
      }
    }
  }

  lemma NextModel(models: seq<Model>, i: nat)
    requires i < |models|
    ensures forall a, b :: Edge(models[..i + 1], a, b) <==>
        Edge(models[..i], a, b) || (a != b && a == models[i].name && RefersTo(models[i], b))
  {
    var more, fewer := models[..i + 1], models[..i];
    forall a, b
      ensures Edge(more, a, b) <==> Edge(fewer, a, b) || (a != b && a == models[i].name && RefersTo(models[i], b))
    {
      if k :| 0 <= k < |fewer| && fewer[k].name == a && RefersTo(fewer[k], b) {
        assert more[k] == fewer[k];
      }
      if a == models[i].name && RefersTo(models[i], b) {
        assert more[i].name == a;
      }
    }
  }

  // ---- the search --------------------------------------------------------------------------------

  /** Names each referring to the next. */
  predicate IsPath(edges: Edges, p: seq<string>) {
    forall i :: 0 < i < |p| ==> Linked(edges, p, i)
  }

  predicate Linked(edges: Edges, p: seq<string>, i: nat)
    requires 0 < i < |p|
  {
    p[i] in Targets(edges, p[i - 1])
  }

  predicate IsLoop(edges: Edges, c: seq<string>) {
    |c| > 1 && c[0] == c[|c| - 1] && IsPath(edges, c)
  }

  /** Every name's targets stand before it. */
  predicate Sorted(edges: Edges, order: seq<string>) {
    forall i, b :: 0 <= i < |order| && b in Targets(edges, order[i]) ==> b in order[..i]
  }

  predicate Distinct(names: seq<string>) {
    forall i, j :: 0 <= i < j < |names| ==> names[i] != names[j]
  }

  type Colours = map<string, Colour>

  function ColourOf(state: Colours, name: string): Colour {
    if name in state then state[name] else White
  }

  /** Grey names are those on the stack, a path without repetition; black names are finished, targets first. */
  ghost predicate Consistent(edges: Edges, state: Colours, stack: seq<string>, order: seq<string>) {
    && (forall n :: n in state ==> state[n] != White)
    && (forall n :: ColourOf(state, n) == Grey <==> n in stack)
    && (forall n :: ColourOf(state, n) == Black <==> n in order)
    && Distinct(stack) && IsPath(edges, stack)
    && Distinct(order) && Sorted(edges, order)
  }

  lemma Enters(edges: Edges, state: Colours, stack: seq<string>, order: seq<string>, name: string)
    requires Consistent(edges, state, stack, order) && ColourOf(state, name) == White
    requires stack == [] || name in Targets(edges, stack[|stack| - 1])
    ensures Consistent(edges, state[name := Grey], stack + [name], order)
  {
    var state', stack' := state[name := Grey], stack + [name];
    PathGrows(edges, stack, name);
    forall n
      ensures ColourOf(state', n) == Grey <==> n in stack'
      ensures ColourOf(state', n) == Black <==> n in order
    {
      assert ColourOf(state', n) == if n == name then Grey else ColourOf(state, n);
    }
  }

  lemma Finishes(edges: Edges, state: Colours, stack: seq<string>, order: seq<string>, name: string)
    requires Consistent(edges, state, stack + [name], order)
    requires forall b :: b in Targets(edges, name) ==> b in order
    ensures Consistent(edges, state[name := Black], stack, order + [name])
  {
    var state', all := state[name := Black], stack + [name];
    assert ColourOf(state, name) == Grey;
    assert forall i :: 0 <= i < |stack| ==> stack[i] == all[i] != all[|stack|];
    forall n
      ensures ColourOf(state', n) == Grey <==> n in stack
      ensures ColourOf(state', n) == Black <==> n in order + [name]
    {
      assert ColourOf(state', n) == if n == name then Black else ColourOf(state, n);
      assert n in all <==> n in stack || n == name;
    }
    PathPrefix(edges, stack, name);
    SortedGrows(edges, order, name);
  }

  lemma PathPrefix(edges: Edges, p: seq<string>, name: string)
    requires IsPath(edges, p + [name])
    ensures IsPath(edges, p)
  {
    forall i | 0 < i < |p|
      ensures Linked(edges, p, i)
    {
      assert Linked(edges, p + [name], i);
    }
  }

  lemma PathGrows(edges: Edges, p: seq<string>, name: string)
    requires IsPath(edges, p) && (p == [] || name in Targets(edges, p[|p| - 1]))
    ensures IsPath(edges, p + [name])
  {
    forall i | 0 < i < |p + [name]|
      ensures Linked(edges, p + [name], i)
    {
      assert i < |p| ==> Linked(edges, p, i);
    }
  }

  lemma SortedGrows(edges: Edges, order: seq<string>, name: string)
    requires Sorted(edges, order) && forall b :: b in Targets(edges, name) ==> b in order
    ensures Sorted(edges, order + [name])
  {
    var more := order + [name];
    forall i, b | 0 <= i < |more| && b in Targets(edges, more[i])
      ensures b in more[..i]
    {
      assert more[..i] == order[..i];
      if i == |order| {
        assert order[..i] == order;
      }
    }
  }

  /** The part of the stack from `target` on, and `target` again. */
  method LoopThrough(edges: Edges, stack: seq<string>, target: string) returns (loop: seq<string>)
    requires IsPath(edges, stack) && target in stack && target in Targets(edges, stack[|stack| - 1])
    ensures IsLoop(edges, loop) && exists start :: 0 <= start < |stack| && loop == stack[start..] + [target]
  {
    var start := 0;
    while stack[start] != target
      invariant start < |stack| && target !in stack[..start]
      decreases |stack| - start
    {
      start := start + 1;
    }
    loop := stack[start..] + [target];
    forall i | 0 < i < |loop|
      ensures Linked(edges, loop, i)
    {
      assert loop[i - 1] == stack[start + i - 1];
      if i < |loop| - 1 {
        assert Linked(edges, stack, start + i);
      }
    }
  }

  class Search {
    const edges: Edges
    var state: Colours
    var stack: seq<string>

    /** The finished names, in the order they were finished. */
    ghost var order: seq<string>
    /** All the names there are. */
    ghost const names: set<string>

    constructor (edges: Edges, ghost names: set<string>)
      requires forall a, b :: b in Targets(edges, a) ==> b in names
      ensures Valid() && this.edges == edges && this.names == names && stack == [] && order == []
    {
      this.edges, this.names := edges, names;
      state, stack, order := map[], [], [];
    }

    ghost predicate Valid()
      reads this
    {
      && (forall a, b :: b in Targets(edges, a) ==> b in names)
      && Consistent(edges, state, stack, order)
    }

    /** Visits a white name; on success everything reachable from it is finished, and the stack is as before. */
    method Visit(name: string) returns (cycle: Option<seq<string>>)
      requires Valid() && ColourOf(state, name) == White && name in names
      requires stack == [] || name in Targets(edges, stack[|stack| - 1])
      modifies this
      ensures cycle.None? ==> Valid() && stack == old(stack) && old(order) <= order && name in order
      ensures cycle.None? ==> old(state).Keys <= state.Keys
      ensures cycle.Some? ==> IsLoop(edges, cycle.value)
      decreases names - state.Keys, 0
    {
      Enters(edges, state, stack, order, name);
      state := state[name := Grey];
      stack := stack + [name];
      cycle := VisitTargets(name);
      if cycle.None? {
        Finishes(edges, state, old(stack), order, name);
        stack := stack[..|stack| - 1];
        state := state[name := Black];
        order := order + [name];
      }
    }

    /** Visits what the name on top of the stack refers to. */
    method VisitTargets(name: string) returns (cycle: Option<seq<string>>)
      requires Valid() && stack != [] && stack[|stack| - 1] == name
      modifies this
      ensures cycle.None? ==> Valid() && stack == old(stack) && old(order) <= order
      ensures cycle.None? ==> old(state).Keys <= state.Keys && forall b :: b in Targets(edges, name) ==> b in order
      ensures cycle.Some? ==> IsLoop(edges, cycle.value)
      decreases names - state.Keys, 1
    {
      var targets := Targets(edges, name);
      for i := 0 to |targets|
        invariant Valid() && stack == old(stack) && old(order) <= order
        invariant old(state).Keys <= state.Keys
        invariant forall k :: 0 <= k < i ==> targets[k] in order
      {
        var target := targets[i];
        if ColourOf(state, target) == White {
          cycle := Visit(target);
          if cycle.Some? {
            return;
          }
        } else if ColourOf(state, target) == Grey {
          var loop := LoopThrough(edges, stack, target);
          return Some(loop);
        }
      }
      cycle := None;
    }
  }

  // ---- the check -----------------------------------------------------------------------------------

  /** Fails with a cycle exactly when there is one; otherwise the tables can be created one after the other. */
  method RejectReferenceCycles(models: seq<Model>) returns (cycle: Option<seq<string>>)
    ensures cycle.Some? ==> IsCycle(models, cycle.value)
    ensures cycle.None? ==> exists order :: CreationOrder(models, order)
    ensures cycle.None? ==> forall c :: !IsCycle(models, c)
  {
    var edges := BuildEdges(models);
    ghost var names := Names(models);
    forall a, b | b in Targets(edges, a)
      ensures b in names
    {
      TargetIsNamed(models, a, b);
    }
    var search := new Search(edges, names);
    for i := 0 to |models|
      invariant search.Valid() && search.edges == edges && search.names == names && search.stack == []
      invariant forall k :: 0 <= k < i ==> models[k].name in search.order
    {
      NameIsNamed(models, i);
      if ColourOf(search.state, models[i].name) == White {
        cycle := search.Visit(models[i].name);
        if cycle.Some? {
          LoopIsCycle(models, edges, cycle.value);
          return;
        }
      }
    }
    OrderIsCreationOrder(models, edges, search.order);
    forall c
      ensures !IsCycle(models, c)
    {
      OrderedHasNoCycle(models, search.order, c);
    }
    cycle := None;
  }

  lemma LoopIsCycle(models: seq<Model>, edges: Edges, c: seq<string>)
    requires IsLoop(edges, c) && forall a, b :: b in Targets(edges, a) <==> Edge(models, a, b)
    ensures IsCycle(models, c)
  {
    forall i | 0 < i < |c|
      ensures Edge(models, c[i - 1], c[i])
    {
      assert Linked(edges, c, i);
    }
  }

  lemma OrderIsCreationOrder(models: seq<Model>, edges: Edges, order: seq<string>)
    requires Distinct(order) && Sorted(edges, order) && forall k :: 0 <= k < |models| ==> models[k].name in order
    requires forall a, b :: b in Targets(edges, a) <==> Edge(models, a, b)
    ensures CreationOrder(models, order)
  {
    forall i, b | 0 <= i < |order| && Edge(models, order[i], b)
      ensures b in order[..i]
    {
      assert b in Targets(edges, order[i]);
    }
  }

  /** The names of the models and of what they refer to. */
  ghost function Names(models: seq<Model>): set<string> {
    if models == [] then {}
    else {models[0].name} + (set f | f in models[0].fields && f.reference.Some? :: f.reference.value) + Names(models[1..])
  }

  lemma {:induction false} NameIsNamed(models: seq<Model>, i: nat)
    requires i < |models|
    ensures models[i].name in Names(models)
    ensures forall b :: RefersTo(models[i], b) ==> b in Names(models)
  {
    if i > 0 {
      NameIsNamed(models[1..], i - 1);
    } else {
      forall b | RefersTo(models[0], b)
        ensures b in Names(models)
      {
        var j :| 0 <= j < |models[0].fields| && models[0].fields[j].reference == Some(b);
        assert models[0].fields[j] in models[0].fields;
      }
    }
  }

  lemma TargetIsNamed(models: seq<Model>, a: string, b: string)
    requires Edge(models, a, b)
    ensures b in Names(models)
  {
    var i :| 0 <= i < |models| && models[i].name == a && RefersTo(models[i], b);
    NameIsNamed(models, i);
  }
}
