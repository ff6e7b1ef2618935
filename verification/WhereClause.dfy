/** The WHERE clause as a whole: its text denotes the conjunction of its predicates. */
module WhereClause {
  import opened Basics
  import opened SqlText
  import opened Predicates
  import opened PredicateMeaning
  import Like = LikePattern
  import S = SqlExpr

  // ---- the expression the words spell ------------------------------------------------

  function Numbers(n: nat, count: nat): seq<nat> {
    seq(count, i requires 0 <= i < count => n + 1 + i)
  }

  function TreeOf(p: Predicate, n: nat): S.Expr
    decreases p, 1
  {
    match p
    case Compare(table, column, op, _) => S.Compare(table.name, column, op, n + 1)
    case In(table, column, args) => S.In(table.name, column, Numbers(n, |args|))
    case NullTest(table, column, negated) => S.NullTest(table.name, column, negated)
    case Constant(_, truth) => S.Constant(truth)
    case Group(_, disjunction, children) => ChainTree(children, n, disjunction)
    case Negation(_, children) => if |children| == 1 then S.Not(TreeOf(children[0], n)) else S.Constant(false)
    case ContainsFold(table, column, _) => S.Ilike(table.name, column, n + 1, "!")
  }

  function ChainTree(ps: seq<Predicate>, n: nat, disjunction: bool): S.Expr
    decreases ps, 0
  {
    if ps == [] then S.Constant(!disjunction) else if |ps| == 1 then TreeOf(ps[0], n)
    else
      var rest := ChainTree(ps[1..], n + |Values(ps[0])|, disjunction);
      if disjunction then S.Or(TreeOf(ps[0], n), rest) else S.And(TreeOf(ps[0], n), rest)
  }

  lemma {:induction false} ParamsParse(n: nat, count: nat, rest: seq<Token>)
    requires count > 0 && !S.Starts(rest, Comma)
    ensures S.ParseParams(ParamTokens(n, count) + rest) == S.Parsed(Numbers(n, count), rest)
    decreases count
  {
    var ts := ParamTokens(n, count) + rest;
    if count == 1 {
      assert ts[1..] == rest && Numbers(n, 1) == [n + 1];
    } else {
      ParamsParse(n + 1, count - 1, rest);
      assert ts[2..] == ParamTokens(n + 1, count - 1) + rest;
      assert Numbers(n, count) == [n + 1] + Numbers(n + 1, count - 1);
    }
  }

  /** A qualified column and then a test. */
  lemma ColumnParses(table: string, column: string, test: seq<Token>, e: S.Expr, rest: seq<Token>, whole: seq<Token>)
    requires whole == [Ident(table), Dot, Ident(column)] + test
    requires S.ParseTest(table, column, test + rest) == S.Parsed(e, rest)
    ensures S.ParseNot(whole + rest) == S.Parsed(e, rest)
  {
    var ts := whole + rest;
    assert ts[0] == Ident(table) && ts[1] == Dot && ts[2] == Ident(column) && ts[3..] == test + rest;
    assert S.ParseNot(ts) == S.ParsePrimary(ts);
  }

  lemma CompareParses(p: Predicate, n: nat, rest: seq<Token>)
    requires p.Compare?
    ensures S.ParseNot(TokensOf(p, n) + rest) == S.Parsed(TreeOf(p, n), rest)
  {
    var test := [if p.op == "LIKE" then Word(p.op) else Symbol(p.op), Param(n + 1)];
    assert (test + rest)[2..] == rest;
    assert TokensOf(p, n) == Column(p) + test;
    ColumnParses(p.table.name, p.column, test, TreeOf(p, n), rest, TokensOf(p, n));
  }

  lemma InParses(p: Predicate, n: nat, rest: seq<Token>)
    requires p.In? && p.args != []
    ensures S.ParseNot(TokensOf(p, n) + rest) == S.Parsed(TreeOf(p, n), rest)
  {
    var test := [Word("IN")] + ([LParen] + ParamTokens(n, |p.args|) + [RParen]);
    var close := [RParen] + rest;
    assert (test + rest)[2..] == ParamTokens(n, |p.args|) + close && close[1..] == rest;
    ParamsParse(n, |p.args|, close);
    ColumnParses(p.table.name, p.column, test, TreeOf(p, n), rest, TokensOf(p, n));
  }

  lemma NullTestParses(p: Predicate, n: nat, rest: seq<Token>)
    requires p.NullTest?
    ensures S.ParseNot(TokensOf(p, n) + rest) == S.Parsed(TreeOf(p, n), rest)
  {
    var test := if p.negated then [Word("IS"), Word("NOT"), Word("NULL")] else [Word("IS"), Word("NULL")];
    assert (test + rest)[|test|..] == rest;
    ColumnParses(p.table.name, p.column, test, TreeOf(p, n), rest, TokensOf(p, n));
  }

  lemma ContainsParses(p: Predicate, n: nat, rest: seq<Token>)
    requires p.ContainsFold?
    ensures S.ParseNot(TokensOf(p, n) + rest) == S.Parsed(TreeOf(p, n), rest)
  {
    var test := [Word("ILIKE"), Param(n + 1), Word("ESCAPE"), Quoted("!")];
    assert (test + rest)[4..] == rest;
    ColumnParses(p.table.name, p.column, test, TreeOf(p, n), rest, TokensOf(p, n));
  }

  lemma ConstantParses(truth: bool, rest: seq<Token>)
    ensures S.ParseNot([Word(if truth then "TRUE" else "FALSE")] + rest) == S.Parsed(S.Constant(truth), rest)
  {
    var ts := [Word(if truth then "TRUE" else "FALSE")] + rest;
    assert ts[1..] == rest;
  }

  predicate Stops(rest: seq<Token>) {
    !S.Starts(rest, Word("AND")) && !S.Starts(rest, Word("OR"))
  }

  lemma BracketParses(inner: seq<Token>, e: S.Expr, rest: seq<Token>, whole: seq<Token>)
    requires whole == [LParen] + inner + [RParen]
    requires S.ParseOr(inner + ([RParen] + rest)) == S.Parsed(e, [RParen] + rest)
    ensures S.ParseNot(whole + rest) == S.Parsed(e, rest)
  {
    var ts := whole + rest;
    assert ts[1..] == inner + ([RParen] + rest);
    assert ([RParen] + rest)[1..] == rest;
    assert S.ParseNot(ts) == S.ParsePrimary(ts);
  }

  lemma NegationParses(bracket: seq<Token>, e: S.Expr, rest: seq<Token>, whole: seq<Token>)
    requires whole == [Word("NOT")] + bracket && S.ParseNot(bracket + rest) == S.Parsed(e, rest)
    ensures S.ParseNot(whole + rest) == S.Parsed(S.Not(e), rest)
  {
    assert (whole + rest)[0] == Word("NOT") && (whole + rest)[1..] == bracket + rest;
  }

  lemma AloneParses(ts: seq<Token>, e: S.Expr, rest: seq<Token>)
    requires S.ParseNot(ts + rest) == S.Parsed(e, rest) && Stops(rest)
    ensures S.ParseAnd(ts + rest) == S.Parsed(e, rest) && S.ParseOr(ts + rest) == S.Parsed(e, rest)
  {
  }

  lemma AndParses(ts: seq<Token>, e: S.Expr, f: S.Expr, link: seq<Token>, rest: seq<Token>)
    requires S.ParseNot(ts) == S.Parsed(e, link) && link != [] && link[0] == Word("AND")
    requires S.ParseAnd(link[1..]) == S.Parsed(f, rest) && Stops(rest)
    ensures S.ParseAnd(ts) == S.Parsed(S.And(e, f), rest) == S.ParseOr(ts)
  {
  }

  lemma OrParses(ts: seq<Token>, e: S.Expr, f: S.Expr, link: seq<Token>, rest: seq<Token>)
    requires S.ParseNot(ts) == S.Parsed(e, link) && link != [] && link[0] == Word("OR")
    requires S.ParseOr(link[1..]) == S.Parsed(f, rest)
    ensures S.ParseOr(ts) == S.Parsed(S.Or(e, f), rest)
  {
    assert S.ParseAnd(ts) == S.Parsed(e, link);
  }

  lemma SplitAtLink(head: seq<Token>, word: Token, tail: seq<Token>, rest: seq<Token>)
    ensures head + [word] + tail + rest == head + ([word] + tail + rest)
    ensures ([word] + tail + rest)[0] == word && ([word] + tail + rest)[1..] == tail + rest
  {
  }

  lemma LinkParses(head: seq<Token>, e: S.Expr, tail: seq<Token>, f: S.Expr, disjunction: bool, rest: seq<Token>, whole: seq<Token>)
    requires Stops(rest) && whole == head + [Word(Connective(disjunction))] + tail
    requires S.ParseNot(head + ([Word(Connective(disjunction))] + tail + rest)) == S.Parsed(e, [Word(Connective(disjunction))] + tail + rest)
    requires (if disjunction then S.ParseOr(tail + rest) else S.ParseAnd(tail + rest)) == S.Parsed(f, rest)
    ensures disjunction ==> S.ParseOr(whole + rest) == S.Parsed(S.Or(e, f), rest)
    ensures !disjunction ==> S.ParseAnd(whole + rest) == S.Parsed(S.And(e, f), rest) == S.ParseOr(whole + rest)
  {
    var ts := whole + rest;
    var link := [Word(Connective(disjunction))] + tail + rest;
    SplitAtLink(head, Word(Connective(disjunction)), tail, rest);
    if disjunction {
      OrParses(ts, e, f, link, rest);
    } else {
      AndParses(ts, e, f, link, rest);
    }
  }

  /** However a tree is surrounded, its words are grouped as that tree. */
  lemma {:induction false} TreeParses(p: Predicate, n: nat, table: TableRef, rest: seq<Token>)
    requires Built(p) && Compiles(p, table)
    ensures S.ParseNot(TokensOf(p, n) + rest) == S.Parsed(TreeOf(p, n), rest)
    decreases p, 1
  {
    match p
    case Compare(_, _, _, _) => CompareParses(p, n, rest);
    case In(_, _, _) => InParses(p, n, rest);
    case NullTest(_, _, _) => NullTestParses(p, n, rest);
    case ContainsFold(_, _, _) => ContainsParses(p, n, rest);
    case Constant(_, truth) => ConstantParses(truth, rest);
    case Group(_, disjunction, children) =>
      ChainParses(children, n, table, disjunction, [RParen] + rest);
      BracketParses(ChainTokens(children, n, disjunction), ChainTree(children, n, disjunction), rest, TokensOf(p, n));
    case Negation(_, children) =>
      var inner, e := TokensOf(children[0], n), TreeOf(children[0], n);
      TreeParses(children[0], n, table, [RParen] + rest);
      AloneParses(inner, e, [RParen] + rest);
      BracketParses(inner, e, rest, [LParen] + inner + [RParen]);
      NegationParses([LParen] + inner + [RParen], e, rest, TokensOf(p, n));
  }

  lemma {:induction false} ChainParses(ps: seq<Predicate>, n: nat, table: TableRef, disjunction: bool, rest: seq<Token>)
    requires ps != [] && Stops(rest) && forall i :: 0 <= i < |ps| ==> Built(ps[i]) && Compiles(ps[i], table)
    ensures S.ParseOr(ChainTokens(ps, n, disjunction) + rest) == S.Parsed(ChainTree(ps, n, disjunction), rest)
    ensures !disjunction ==> S.ParseAnd(ChainTokens(ps, n, disjunction) + rest) == S.Parsed(ChainTree(ps, n, disjunction), rest)
    decreases ps, 0
  {
    if |ps| == 1 {
      TreeParses(ps[0], n, table, rest);
      AloneParses(TokensOf(ps[0], n), TreeOf(ps[0], n), rest);
    } else {
      var m := n + |Values(ps[0])|;
      var tail := ChainTokens(ps[1..], m, disjunction);
      TreeParses(ps[0], n, table, [Word(Connective(disjunction))] + tail + rest);
      ChainParses(ps[1..], m, table, disjunction, rest);
      LinkParses(TokensOf(ps[0], n), TreeOf(ps[0], n), tail, ChainTree(ps[1..], m, disjunction), disjunction, rest,
                 ChainTokens(ps, n, disjunction));
    }
  }

  // ---- its value --------------------------------------------------------------------

  lemma AllOfStep(t: Truth, ts: seq<Truth>)
    ensures AllOf([t] + ts) == S.Both(t, AllOf(ts)) && AnyOf([t] + ts) == S.Either(t, AnyOf(ts))
  {
    assert forall x :: x in [t] + ts <==> x == t || x in ts;
  }

  lemma {:induction false} AmongIsAnyOf(db: S.Database, v: Value, args: seq<Value>)
    ensures S.Among(db, v, args) == AnyOf(Equalities(db, v, args))
    decreases |args|
  {
    if args != [] {
      AmongIsAnyOf(db, v, args[1..]);
      assert Equalities(db, v, args) == [db.compare("=", v, args[0])] + Equalities(db, v, args[1..]);
      AllOfStep(db.compare("=", v, args[0]), Equalities(db, v, args[1..]));
    }
  }

  /** From position n on, the arguments are these values. */
  predicate Bound(args: seq<Value>, n: nat, values: seq<Value>) {
    n + |values| <= |args| && args[n..n + |values|] == values
  }

  lemma BoundParts(args: seq<Value>, n: nat, a: seq<Value>, b: seq<Value>)
    requires Bound(args, n, a + b)
    ensures Bound(args, n, a) && Bound(args, n + |a|, b)
  {
    var both := args[n..n + |a + b|];
    assert both[..|a|] == a && both[|a|..] == b;
    assert args[n..n + |a|] == both[..|a|] && args[n + |a|..n + |a| + |b|] == both[|a|..];
  }

  lemma ChainBound(args: seq<Value>, n: nat, ps: seq<Predicate>)
    requires ps != [] && Bound(args, n, AllValues(ps))
    ensures Bound(args, n, Values(ps[0])) && Bound(args, n + |Values(ps[0])|, AllValues(ps[1..]))
  {
    assert AllValues(ps) == Values(ps[0]) + AllValues(ps[1..]);
    BoundParts(args, n, Values(ps[0]), AllValues(ps[1..]));
  }

  lemma ArgAt(args: seq<Value>, n: nat, values: seq<Value>, i: nat)
    requires Bound(args, n, values) && i < |values|
    ensures S.Arg(args, n + 1 + i) == values[i]
  {
    assert args[n..n + |values|][i] == args[n + i];
  }

  lemma TestMeans(p: Predicate, n: nat, table: TableRef, db: S.Database, row: S.Row, args: seq<Value>)
    requires p.Compare? || p.In? || p.ContainsFold?
    requires Compiles(p, table) && Bound(args, n, Values(p))
    ensures S.Eval(TreeOf(p, n), db, row, args) == Meaning(p, db, row)
  {
    if p.In? {
      forall i | 0 <= i < |p.args| ensures S.Args(args, Numbers(n, |p.args|))[i] == p.args[i] {
        ArgAt(args, n, p.args, i);
      }
      assert S.Args(args, Numbers(n, |p.args|)) == p.args;
      AmongIsAnyOf(db, row(p.column), p.args);
    } else {
      ArgAt(args, n, p.args, 0);
    }
  }

  lemma {:induction false} TreeMeans(p: Predicate, n: nat, table: TableRef, db: S.Database, row: S.Row, args: seq<Value>)
    requires Compiles(p, table) && Bound(args, n, Values(p))
    ensures S.Eval(TreeOf(p, n), db, row, args) == Meaning(p, db, row)
    decreases p, 1
  {
    match p
    case NullTest(_, _, _) =>
    case Constant(_, _) =>
    case Group(_, disjunction, children) => ChainMeans(children, n, table, disjunction, db, row, args);
    case Negation(_, children) =>
      assert AllValues(children) == Values(children[0]) + AllValues(children[1..]);
      TreeMeans(children[0], n, table, db, row, args);
    case _ => TestMeans(p, n, table, db, row, args);
  }

  /** The chain's meaning, as the predicates' meanings make it. */
  function ChainMeaning(ps: seq<Predicate>, disjunction: bool, db: S.Database, row: S.Row): Truth {
    if disjunction then AnyOf(Meanings(ps, db, row)) else AllOf(Meanings(ps, db, row))
  }

  lemma {:induction false} ChainMeans(ps: seq<Predicate>, n: nat, table: TableRef, disjunction: bool, db: S.Database, row: S.Row, args: seq<Value>)
    requires ps != [] && (forall i :: 0 <= i < |ps| ==> Compiles(ps[i], table)) && Bound(args, n, AllValues(ps))
    ensures ChainDenotes(ps, n, disjunction, db, row, args)
    decreases ps, 0
  {
    ChainBound(args, n, ps);
    TreeMeans(ps[0], n, table, db, row, args);
    if |ps| > 1 {
      var rest := ps[1..];
      assert forall i :: 0 <= i < |rest| ==> rest[i] == ps[i + 1];
      ChainMeans(rest, n + |Values(ps[0])|, table, disjunction, db, row, args);
    }
    ChainLinks(ps, n, disjunction, db, row, args);
  }

  predicate ChainDenotes(ps: seq<Predicate>, n: nat, disjunction: bool, db: S.Database, row: S.Row, args: seq<Value>) {
    S.Eval(ChainTree(ps, n, disjunction), db, row, args) == ChainMeaning(ps, disjunction, db, row)
  }

  lemma ChainLinks(ps: seq<Predicate>, n: nat, disjunction: bool, db: S.Database, row: S.Row, args: seq<Value>)
    requires ps != [] && S.Eval(TreeOf(ps[0], n), db, row, args) == Meaning(ps[0], db, row)
    requires |ps| > 1 ==> ChainDenotes(ps[1..], n + |Values(ps[0])|, disjunction, db, row, args)
    ensures ChainDenotes(ps, n, disjunction, db, row, args)
  {
    MeaningsStep(ps, db, row);
    if |ps| > 1 {
      ChainEval(ps, n, disjunction, db, row, args);
    }
  }

  lemma MeaningsStep(ps: seq<Predicate>, db: S.Database, row: S.Row)
    requires ps != []
    ensures AllOf(Meanings(ps, db, row)) == S.Both(Meaning(ps[0], db, row), AllOf(Meanings(ps[1..], db, row)))
    ensures AnyOf(Meanings(ps, db, row)) == S.Either(Meaning(ps[0], db, row), AnyOf(Meanings(ps[1..], db, row)))
    ensures |ps| == 1 ==> Meanings(ps[1..], db, row) == []
  {
    assert Meanings(ps, db, row) == [Meaning(ps[0], db, row)] + Meanings(ps[1..], db, row);
    AllOfStep(Meaning(ps[0], db, row), Meanings(ps[1..], db, row));
  }

  lemma ChainEval(ps: seq<Predicate>, n: nat, disjunction: bool, db: S.Database, row: S.Row, args: seq<Value>)
    requires |ps| > 1
    ensures var e := S.Eval(TreeOf(ps[0], n), db, row, args);
      var f := S.Eval(ChainTree(ps[1..], n + |Values(ps[0])|, disjunction), db, row, args);
      S.Eval(ChainTree(ps, n, disjunction), db, row, args) == if disjunction then S.Either(e, f) else S.Both(e, f)
  {
  }

  function ContainsFoldOf(table: TableRef, column: string, literal: string): Predicate {
    ContainsFold(table, column, [S.Text(Like.ContainsPattern(literal))])
  }

  /** On a database whose ILIKE is the standard's LIKE up to folding, the predicate
      holds of a string exactly when the string contains the literal. */
  lemma ContainsFoldMeansContains(table: TableRef, column: string, literal: string, db: S.Database, row: S.Row, fold: char -> char)
    requires forall s, p :: db.ilike(S.Text(s), S.Text(p), "!") == S.Truly(Like.Like(p, s, fold))
    requires row(column).Text?
    ensures Meaning(ContainsFoldOf(table, column, literal), db, row) == S.Truly(Like.Contains(row(column).s, literal, fold))
  {
    Like.ContainsPatternIsContains(literal, row(column).s, fold);
  }

  // ---- the clause --------------------------------------------------------------------

  function ClauseText(ps: seq<Predicate>, n: nat): string { Join(TextsOf(ps, n), " AND ") }

  /** The tokens of a text that is read on its own. */
  lemma LexesAlone(text: string, ts: seq<Token>)
    requires Reads(text, ts)
    ensures Lex(text) == Some(ts)
  {
    assert Lex(text + "") == Prepend(ts, Lex(""));
    assert text + "" == text && ts + [] == ts;
  }

  /** The clause text, with any number of arguments bound before it, is read back as the conjunction. */
  lemma ClauseReads(ps: seq<Predicate>, n: nat, table: TableRef)
    requires ps != [] && forall i :: 0 <= i < |ps| ==> Built(ps[i]) && Compiles(ps[i], table)
    ensures S.Read(ClauseText(ps, n)) == Some(ChainTree(ps, n, false))
  {
    var text, ts := ClauseText(ps, n), ChainTokens(ps, n, false);
    ChainReads(ps, n, table, false);
    LexesAlone(text, ts);
    ChainParses(ps, n, table, false, []);
    assert ts + [] == ts;
  }

  /** Read with NOT before AND before OR, and with $k standing for the k-th argument,
      the clause has on every row the three-valued conjunction of its predicates,
      whatever was bound before it and whatever the statement goes on to bind. */
  lemma ClauseMeansConjunction(ps: seq<Predicate>, table: TableRef, db: S.Database, row: S.Row, bound: seq<Value>, more: seq<Value>)
    requires ps != [] && forall i :: 0 <= i < |ps| ==> Built(ps[i]) && Compiles(ps[i], table)
    ensures S.Read(ClauseText(ps, |bound|)).Some?
    ensures S.Eval(S.Read(ClauseText(ps, |bound|)).value, db, row, bound + AllValues(ps) + more) == AllOf(Meanings(ps, db, row))
  {
    ClauseReads(ps, |bound|, table);
    BoundBetween(bound, AllValues(ps), more);
    ChainMeans(ps, |bound|, table, false, db, row, bound + AllValues(ps) + more);
  }

  lemma BoundBetween(bound: seq<Value>, values: seq<Value>, more: seq<Value>)
    ensures Bound(bound + values + more, |bound|, values)
  {
    assert (bound + values + more)[|bound|..|bound| + |values|] == values;
  }

  // ---- one table -------------------------------------------------------------------------------

  /** Every column in the expression is one of this table. */
  predicate NamesOnly(e: S.Expr, table: string) {
    match e
    case Or(l, r) => NamesOnly(l, table) && NamesOnly(r, table)
    case And(l, r) => NamesOnly(l, table) && NamesOnly(r, table)
    case Not(o) => NamesOnly(o, table)
    case Constant(_) => true
    case Compare(t, _, _, _) => t == table
    case Ilike(t, _, _, _) => t == table
    case In(t, _, _) => t == table
    case NullTest(t, _, _) => t == table
  }

  lemma {:induction false} TreeNamesOnly(p: Predicate, n: nat, table: TableRef)
    requires Compiles(p, table)
    ensures NamesOnly(TreeOf(p, n), table.name)
    decreases p, 1
  {
    match p
    case Group(_, disjunction, children) => ChainNamesOnly(children, n, table, disjunction);
    case Negation(_, children) => TreeNamesOnly(children[0], n, table);
    case _ =>
  }

  lemma {:induction false} ChainNamesOnly(ps: seq<Predicate>, n: nat, table: TableRef, disjunction: bool)
    requires forall i :: 0 <= i < |ps| ==> Compiles(ps[i], table)
    ensures NamesOnly(ChainTree(ps, n, disjunction), table.name)
    decreases ps, 0
  {
    if ps != [] {
      TreeNamesOnly(ps[0], n, table);
      if |ps| > 1 {
        ChainNamesOnly(ps[1..], n + |Values(ps[0])|, table, disjunction);
      }
    }
  }

  /** A clause reads columns of its own table only. */
  lemma ClauseNamesOnly(ps: seq<Predicate>, n: nat, table: TableRef)
    requires ps != [] && forall i :: 0 <= i < |ps| ==> Built(ps[i]) && Compiles(ps[i], table)
    ensures S.Read(ClauseText(ps, n)).Some? && NamesOnly(S.Read(ClauseText(ps, n)).value, table.name)
  {
    ClauseReads(ps, n, table);
    ChainNamesOnly(ps, n, table, false);
  }

  // ---- placeholders -----------------------------------------------------------------------

  function Placeholders(ts: seq<Token>): seq<nat> {
    if ts == [] then [] else (if ts[0].Param? then [ts[0].k] else []) + Placeholders(ts[1..])
  }

  lemma {:induction false} PlaceholdersOfParts(a: seq<Token>, b: seq<Token>)
    ensures Placeholders(a + b) == Placeholders(a) + Placeholders(b)
    decreases |a|
  {
    if a == [] {
      assert a + b == b;
    } else {
      PlaceholdersOfParts(a[1..], b);
      assert (a + b)[0] == a[0] && (a + b)[1..] == a[1..] + b;
      var head := if a[0].Param? then [a[0].k] else [];
      assert head + (Placeholders(a[1..]) + Placeholders(b)) == head + Placeholders(a[1..]) + Placeholders(b);
    }
  }

  lemma {:induction false} PlaceholdersOfParams(n: nat, count: nat)
    ensures Placeholders(ParamTokens(n, count)) == Numbers(n, count)
    decreases count
  {
    if count == 1 {
      assert Placeholders([Param(n + 1)]) == [n + 1];
    } else if count > 1 {
      PlaceholdersOfParams(n + 1, count - 1);
      PlaceholdersOfParts([Param(n + 1)] + [Comma], ParamTokens(n + 1, count - 1));
      assert ([Param(n + 1)] + [Comma])[1..] == [Comma] && Placeholders([Comma]) == [];
      assert Numbers(n, count) == [n + 1] + Numbers(n + 1, count - 1);
    }
  }

  lemma NoPlaceholders(ts: seq<Token>)
    requires forall i :: 0 <= i < |ts| ==> !ts[i].Param?
    ensures Placeholders(ts) == []
  {
  }

  lemma NumbersInARow(n: nat, a: nat, b: nat)
    ensures Numbers(n, a) + Numbers(n + a, b) == Numbers(n, a + b)
  {
  }

  /** In text order the placeholders of a tree are $n+1, $n+2, ... without a gap. */
  lemma {:induction false} PlaceholdersInOrder(p: Predicate, n: nat, table: TableRef)
    requires Compiles(p, table)
    ensures Placeholders(TokensOf(p, n)) == Numbers(n, |Values(p)|)
    decreases p, 1
  {
    match p
    case Compare(_, _, op, _) =>
      var front := Column(p) + [if op == "LIKE" then Word(op) else Symbol(op)];
      PlaceholdersOfParts(front, [Param(n + 1)]);
      NoPlaceholders(front);
      PlaceholdersOfParams(n, 1);
    case ContainsFold(_, _, _) =>
      var front, back := Column(p) + [Word("ILIKE")], [Word("ESCAPE"), Quoted("!")];
      assert TokensOf(p, n) == front + ([Param(n + 1)] + back);
      PlaceholdersOfParts(front, [Param(n + 1)] + back);
      PlaceholdersOfParts([Param(n + 1)], back);
      NoPlaceholders(front);
      NoPlaceholders(back);
      PlaceholdersOfParams(n, 1);
    case In(_, _, args) =>
      var front := Column(p) + [Word("IN"), LParen];
      assert TokensOf(p, n) == front + (ParamTokens(n, |args|) + [RParen]);
      PlaceholdersOfParts(front, ParamTokens(n, |args|) + [RParen]);
      PlaceholdersOfParts(ParamTokens(n, |args|), [RParen]);
      NoPlaceholders(front);
      NoPlaceholders([RParen]);
      PlaceholdersOfParams(n, |args|);
    case NullTest(_, _, _) =>
      NoPlaceholders(TokensOf(p, n));
    case Constant(_, _) =>
      NoPlaceholders(TokensOf(p, n));
    case Group(_, disjunction, children) =>
      ChainInOrder(children, n, table, disjunction);
      BracketPlaceholders(ChainTokens(children, n, disjunction));
    case Negation(_, children) =>
      PlaceholdersInOrder(children[0], n, table);
      BracketPlaceholders(TokensOf(children[0], n));
      PlaceholdersOfParts([Word("NOT")], [LParen] + TokensOf(children[0], n) + [RParen]);
      NoPlaceholders([Word("NOT")]);
      assert AllValues(children) == Values(children[0]) + AllValues(children[1..]);
  }

  lemma BracketPlaceholders(ts: seq<Token>)
    ensures Placeholders([LParen] + ts + [RParen]) == Placeholders(ts)
  {
    PlaceholdersOfParts([LParen] + ts, [RParen]);
    PlaceholdersOfParts([LParen], ts);
    NoPlaceholders([LParen]);
    NoPlaceholders([RParen]);
  }

  lemma LinkPlaceholders(head: seq<Token>, w: string, tail: seq<Token>, n: nat, a: nat, b: nat)
    requires Placeholders(head) == Numbers(n, a) && Placeholders(tail) == Numbers(n + a, b)
    ensures Placeholders(head + [Word(w)] + tail) == Numbers(n, a + b)
  {
    PlaceholdersOfParts(head + [Word(w)], tail);
    PlaceholdersOfParts(head, [Word(w)]);
    NoPlaceholders([Word(w)]);
    NumbersInARow(n, a, b);
  }

  lemma {:induction false} ChainInOrder(ps: seq<Predicate>, n: nat, table: TableRef, disjunction: bool)
    requires forall i :: 0 <= i < |ps| ==> Compiles(ps[i], table)
    ensures Placeholders(ChainTokens(ps, n, disjunction)) == Numbers(n, |AllValues(ps)|)
    decreases ps, 0
  {
    if ps == [] {
      return;
    }
    PlaceholdersInOrder(ps[0], n, table);
    var rest, a := ps[1..], |Values(ps[0])|;
    assert |AllValues(ps)| == a + |AllValues(rest)|;
    if |ps| == 1 {
      assert ChainTokens(ps, n, disjunction) == TokensOf(ps[0], n);
    } else {
      ChainInOrder(rest, n + a, table, disjunction);
      LinkPlaceholders(TokensOf(ps[0], n), Connective(disjunction), ChainTokens(rest, n + a, disjunction), n, a, |AllValues(rest)|);
    }
  }

  /** Reading the text of a tree finds its placeholders in order, without a gap, from $n+1 on. */
  lemma TextPlaceholders(p: Predicate, n: nat, table: TableRef)
    requires Built(p) && Compiles(p, table)
    ensures Lex(TextOf(p, n)).Some? && Placeholders(Lex(TextOf(p, n)).value) == Numbers(n, |Values(p)|)
  {
    TextReads(p, n, table);
    LexesAlone(TextOf(p, n), TokensOf(p, n));
    PlaceholdersInOrder(p, n, table);
  }

  /** The same for the whole clause. */
  lemma ClausePlaceholders(ps: seq<Predicate>, n: nat, table: TableRef)
    requires ps != [] && forall i :: 0 <= i < |ps| ==> Built(ps[i]) && Compiles(ps[i], table)
    ensures Lex(ClauseText(ps, n)).Some? && Placeholders(Lex(ClauseText(ps, n)).value) == Numbers(n, |AllValues(ps)|)
  {
    ChainReads(ps, n, table, false);
    LexesAlone(ClauseText(ps, n), ChainTokens(ps, n, false));
    ChainInOrder(ps, n, table, false);
  }

  // ---- writing the clause --------------------------------------------------------------------

  /** What is still to be written after i of the predicates. */
  function Unwritten(ps: seq<Predicate>, i: nat, n: nat): string
    requires i <= |ps|
  {
    (if 0 < i < |ps| then " AND " else "") + ClauseText(ps[i..], n)
  }

  lemma PredicateWritten(query: string, ps: seq<Predicate>, i: nat, n: nat)
    requires i < |ps|
    ensures query + Unwritten(ps, i, n) ==
              query + (if i > 0 then " AND " else "") + TextOf(ps[i], n) + Unwritten(ps, i + 1, n + |Values(ps[i])|)
  {
    var m := n + |Values(ps[i])|;
    var start := if i > 0 then " AND " else "";
    ClauseStep(ps, i, n);
    assert Unwritten(ps, i, n) == start + ClauseText(ps[i..], n);
    Regroups(query, start, TextOf(ps[i], n), Unwritten(ps, i + 1, m));
  }

  lemma ClauseStep(ps: seq<Predicate>, i: nat, n: nat)
    requires i < |ps|
    ensures ClauseText(ps[i..], n) == TextOf(ps[i], n) + Unwritten(ps, i + 1, n + |Values(ps[i])|)
  {
    var rest, m := ps[i..], n + |Values(ps[i])|;
    assert rest[0] == ps[i] && rest[1..] == ps[i + 1..];
    var texts := TextsOf(rest, n);
    assert texts == [TextOf(ps[i], n)] + TextsOf(ps[i + 1..], m) && texts[1..] == TextsOf(ps[i + 1..], m);
  }

  lemma ValuesWritten(args: seq<Value>, ps: seq<Predicate>, i: nat)
    requires i < |ps|
    ensures args + AllValues(ps[i..]) == args + Values(ps[i]) + AllValues(ps[i + 1..])
  {
    MemberCompiled([], args, ps, i);
  }

  method WritePredicates(query: string, compiler: SqlCompiler, table: TableRef, ps: seq<Predicate>) returns (written: Option<string>)
    modifies compiler
    ensures written.Some? <==> forall i :: 0 <= i < |ps| ==> Compiles(ps[i], table)
    ensures written.Some? && ps == [] ==> written.value == query && compiler.args == old(compiler.args)
    ensures written.Some? && ps != [] ==>
              && written.value == query + " WHERE " + ClauseText(ps, |old(compiler.args)|)
              && compiler.args == old(compiler.args) + AllValues(ps)
  {
    if ps == [] {
      return Some(query);
    }
    var text := query + " WHERE ";
    ghost var args0 := compiler.args;
    ghost var goal := text + ClauseText(ps, |args0|);
    ClauseEnds(text, ps, |args0|);
    for i := 0 to |ps|
      invariant forall j :: 0 <= j < i ==> Compiles(ps[j], table)
      invariant compiler.args + AllValues(ps[i..]) == args0 + AllValues(ps)
      invariant text + Unwritten(ps, i, |compiler.args|) == goal
    {
      PredicateWritten(text, ps, i, |compiler.args|);
      ValuesWritten(compiler.args, ps, i);
      var compiled := compiler.Compile(ps[i], table);
      if compiled.None? {
        return None;
      }
      text := text + (if i > 0 then " AND " else "") + compiled.value;
    }
    ClauseEnds(text, ps, |compiler.args|);
    written := Some(text);
  }

  lemma ClauseEnds(text: string, ps: seq<Predicate>, n: nat)
    ensures ps[0..] == ps && text + Unwritten(ps, 0, n) == text + ClauseText(ps, n)
    ensures AllValues(ps[|ps|..]) == [] && text + Unwritten(ps, |ps|, n) == text
  {
    assert ps[0..] == ps && ps[|ps|..] == [];
  }
}
