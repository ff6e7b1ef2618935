/** Reading generated pieces back: every opening has its end, and what lies between is the nesting of the page. */
module ViewBrackets {
  import opened Basics
  import opened ViewCompile

  // ---- a reader of brackets -----------------------------------------------------------------------------------

  /** A piece alone, or what an opening and its end enclose: a first body, branches, and perhaps another body. */
  datatype Tree = Single(piece: Piece) | Nested(opening: Piece, body: seq<Tree>, arms: seq<Arm>, other: Other, ending: Piece)

  datatype Arm = Arm(start: Piece, body: seq<Tree>)

  datatype Other = NoOther | Other(start: Piece, body: seq<Tree>)

  predicate IsOpening(p: Piece) {
    p.Code? && (p.role.Opens? || p.role.Lists? || p.role.Enters?)
  }

  predicate IsBranch(p: Piece) {
    p.Code? && p.role.Branches?
  }

  predicate IsOther(p: Piece) {
    p.Code? && p.role.Otherwise?
  }

  predicate IsEnd(p: Piece) {
    p.Code? && p.role.Ends?
  }

  /** A body ends before this piece. */
  predicate IsStop(p: Piece) {
    IsBranch(p) || IsOther(p) || IsEnd(p)
  }

  /** Reads as far as a body goes; what follows it is left. */
  function ReadTrees(ps: seq<Piece>): (r: Option<(seq<Tree>, seq<Piece>)>)
    ensures r.Some? ==> |r.value.1| <= |ps|
    decreases |ps|, 1
  {
    if ps == [] || IsStop(ps[0]) then Some(([], ps))
    else
      var first := if IsOpening(ps[0]) then ReadNested(ps) else Some((Single(ps[0]), ps[1..]));
      if first.None? then None
      else
        var rest := ReadTrees(first.value.1);
        if rest.None? then None else Some(([first.value.0] + rest.value.0, rest.value.1))
  }

  /** Reads an opening with all that belongs to it. */
  function ReadNested(ps: seq<Piece>): (r: Option<(Tree, seq<Piece>)>)
    requires ps != []
    ensures r.Some? ==> |r.value.1| < |ps|
    decreases |ps|, 0
  {
    var body := ReadTrees(ps[1..]);
    if body.None? then None
    else
      var arms := ReadArms(body.value.1);
      if arms.None? then None
      else
        var other := ReadOther(arms.value.1);
        if other.None? || other.value.1 == [] || !IsEnd(other.value.1[0]) then None
        else Some((Nested(ps[0], body.value.0, arms.value.0, other.value.0, other.value.1[0]), other.value.1[1..]))
  }

  function ReadArms(ps: seq<Piece>): (r: Option<(seq<Arm>, seq<Piece>)>)
    ensures r.Some? ==> |r.value.1| <= |ps|
    decreases |ps|, 2
  {
    if ps == [] || !IsBranch(ps[0]) then Some(([], ps))
    else
      var body := ReadTrees(ps[1..]);
      if body.None? then None
      else
        var rest := ReadArms(body.value.1);
        if rest.None? then None else Some(([Arm(ps[0], body.value.0)] + rest.value.0, rest.value.1))
  }

  function ReadOther(ps: seq<Piece>): (r: Option<(Other, seq<Piece>)>)
    ensures r.Some? ==> |r.value.1| <= |ps|
    decreases |ps|, 2
  {
    if ps == [] || !IsOther(ps[0]) then Some((NoOther, ps))
    else
      var body := ReadTrees(ps[1..]);
      if body.None? then None else Some((Other(ps[0], body.value.0), body.value.1))
  }

  /** The pieces are balanced, and read as these trees. */
  predicate ReadsAs(ps: seq<Piece>, trees: seq<Tree>) {
    ReadTrees(ps) == Some((trees, []))
  }

  // ---- what trees look like in pieces --------------------------------------------------------------------------

  function Flat(trees: seq<Tree>): seq<Piece>
    decreases trees, 1
  {
    if trees == [] then [] else FlatTree(trees[0]) + Flat(trees[1..])
  }

  function FlatTree(tree: Tree): seq<Piece>
    decreases tree, 0
  {
    match tree
    case Single(piece) => [piece]
    case Nested(opening, body, arms, other, ending) => [opening] + Flat(body) + FlatArms(arms) + FlatOther(other) + [ending]
  }

  function FlatArms(arms: seq<Arm>): seq<Piece>
    decreases arms, 0
  {
    if arms == [] then [] else [arms[0].start] + Flat(arms[0].body) + FlatArms(arms[1..])
  }

  function FlatOther(other: Other): seq<Piece>
    decreases other, 0
  {
    if other.NoOther? then [] else [other.start] + Flat(other.body)
  }

  predicate Proper(trees: seq<Tree>)
    decreases trees, 1
  {
    trees == [] || (ProperTree(trees[0]) && Proper(trees[1..]))
  }

  predicate ProperTree(tree: Tree)
    decreases tree, 0
  {
    match tree
    case Single(piece) => !IsOpening(piece) && !IsStop(piece)
    case Nested(opening, body, arms, other, ending) =>
      && IsOpening(opening) && !IsStop(opening) && Proper(body) && ProperArms(arms)
      && (other.Other? ==> IsOther(other.start) && Proper(other.body)) && IsEnd(ending)
  }

  predicate ProperArms(arms: seq<Arm>)
    decreases arms, 0
  {
    arms == [] || (IsBranch(arms[0].start) && Proper(arms[0].body) && ProperArms(arms[1..]))
  }

  predicate Stops(rest: seq<Piece>) {
    rest == [] || IsStop(rest[0])
  }

  /** Proper trees are read back from their pieces, whatever follows the body. */
  lemma {:induction false} ReadsFlat(trees: seq<Tree>, rest: seq<Piece>)
    requires Proper(trees) && Stops(rest)
    ensures ReadTrees(Flat(trees) + rest) == Some((trees, rest))
    decreases trees, 2
  {
    if trees == [] {
      assert Flat(trees) + rest == rest;
    } else {
      ReadsFlat(trees[1..], rest);
      var after := Flat(trees[1..]) + rest;
      assert Flat(trees) + rest == FlatTree(trees[0]) + after;
      ReadsTree(trees[0], after);
      assert trees == [trees[0]] + trees[1..];
    }
  }

  /** The first tree, read off the front. */
  lemma {:induction false} ReadsTree(tree: Tree, after: seq<Piece>)
    requires ProperTree(tree)
    ensures var ps := FlatTree(tree) + after;
      && ps != [] && !IsStop(ps[0])
      && (if IsOpening(ps[0]) then ReadNested(ps) else Some((Single(ps[0]), ps[1..]))) == Some((tree, after))
    decreases tree, 1
  {
    if tree.Single? {
      assert ([tree.piece] + after)[1..] == after;
    } else {
      ReadsNested(tree, after);
    }
  }

  lemma {:induction false} ReadsNested(tree: Tree, after: seq<Piece>)
    requires tree.Nested? && ProperTree(tree)
    ensures var ps := FlatTree(tree) + after; ps[0] == tree.opening && ReadNested(ps) == Some((tree, after))
    decreases tree, 0
  {
    var ps := FlatTree(tree) + after;
    var last := [tree.ending] + after;
    var third := FlatOther(tree.other) + last;
    var second := FlatArms(tree.arms) + third;
    PeelNested(tree.opening, Flat(tree.body), FlatArms(tree.arms), FlatOther(tree.other), tree.ending, after);
    StopsHere(tree.arms, tree.other, last);
    ReadsFlat(tree.body, second);
    ReadsArms(tree.arms, third);
    ReadsOther(tree.other, last);
    assert last[1..] == after;
  }

  lemma PeelNested<T>(x: T, a: seq<T>, b: seq<T>, c: seq<T>, y: T, after: seq<T>)
    ensures var ps := [x] + a + b + c + [y] + after; ps[0] == x && ps[1..] == a + (b + (c + ([y] + after)))
  {
  }

  lemma StopsHere(arms: seq<Arm>, other: Other, last: seq<Piece>)
    requires ProperArms(arms) && (other.Other? ==> IsOther(other.start)) && last != [] && IsEnd(last[0])
    ensures Stops(FlatOther(other) + last) && Stops(FlatArms(arms) + (FlatOther(other) + last))
    ensures var third := FlatOther(other) + last; third != [] && !IsBranch(third[0])
  {
    assert other.NoOther? ==> FlatOther(other) + last == last;
    assert arms == [] ==> FlatArms(arms) + (FlatOther(other) + last) == FlatOther(other) + last;
  }

  lemma {:induction false} ReadsArms(arms: seq<Arm>, rest: seq<Piece>)
    requires ProperArms(arms) && Stops(rest) && rest != [] && !IsBranch(rest[0])
    ensures ReadArms(FlatArms(arms) + rest) == Some((arms, rest))
    decreases arms, 0
  {
    if arms == [] {
      assert FlatArms(arms) + rest == rest;
    } else {
      ArmsGlue(arms, rest);
      ReadsFlat(arms[0].body, FlatArms(arms[1..]) + rest);
      ReadsArms(arms[1..], rest);
      ArmsRead(arms, FlatArms(arms) + rest, FlatArms(arms[1..]) + rest, rest);
    }
  }

  lemma Peel<T>(x: T, a: seq<T>, b: seq<T>, c: seq<T>)
    ensures ([x] + a + b + c)[0] == x && ([x] + a + b + c)[1..] == a + (b + c)
  {
  }

  lemma ArmsGlue(arms: seq<Arm>, rest: seq<Piece>)
    requires arms != [] && ProperArms(arms) && Stops(rest)
    ensures var ps, after := FlatArms(arms) + rest, FlatArms(arms[1..]) + rest;
      ps != [] && ps[0] == arms[0].start && ps[1..] == Flat(arms[0].body) + after && Stops(after)
  {
    Peel(arms[0].start, Flat(arms[0].body), FlatArms(arms[1..]), rest);
    ArmsStop(arms[1..], rest);
  }

  lemma ArmsStop(arms: seq<Arm>, rest: seq<Piece>)
    requires ProperArms(arms) && Stops(rest)
    ensures Stops(FlatArms(arms) + rest)
  {
    if arms == [] {
      assert FlatArms(arms) + rest == rest;
    } else {
      Peel(arms[0].start, Flat(arms[0].body), FlatArms(arms[1..]), rest);
    }
  }

  lemma ArmsRead(arms: seq<Arm>, ps: seq<Piece>, after: seq<Piece>, rest: seq<Piece>)
    requires arms != [] && ps != [] && IsBranch(ps[0]) && ps[0] == arms[0].start
    requires ReadTrees(ps[1..]) == Some((arms[0].body, after)) && ReadArms(after) == Some((arms[1..], rest))
    ensures ReadArms(ps) == Some((arms, rest))
  {
    assert arms == [Arm(ps[0], arms[0].body)] + arms[1..];
  }

  lemma {:induction false} ReadsOther(other: Other, rest: seq<Piece>)
    requires (other.Other? ==> IsOther(other.start) && Proper(other.body)) && rest != [] && IsEnd(rest[0])
    ensures ReadOther(FlatOther(other) + rest) == Some((other, rest))
    decreases other, 0
  {
    if other.NoOther? {
      assert FlatOther(other) + rest == rest;
    } else {
      var ps := FlatOther(other) + rest;
      Peel(other.start, Flat(other.body), [], rest);
      assert [other.start] + Flat(other.body) + [] == FlatOther(other) && [] + rest == rest;
      ReadsFlat(other.body, rest);
    }
  }
}
