/** PostgreSQL reads the compiled text of predicates as what they mean. */
module PredicateMeaning {
  import opened SqlText
  import opened Predicates
  import S = SqlExpr

  // ---- the words of the text ----------------------------------------------------

  function Column(p: Predicate): seq<Token>
    requires p.Compare? || p.In? || p.NullTest? || p.ContainsFold?
  {
    [Ident(p.table.name), Dot, Ident(p.column)]
  }

  function ParamTokens(n: nat, count: nat): seq<Token>
    decreases count
  {
    if count == 0 then [] else if count == 1 then [Param(n + 1)]
    else [Param(n + 1)] + [Comma] + ParamTokens(n + 1, count - 1)
  }

  function Connective(disjunction: bool): string { if disjunction then "OR" else "AND" }

  function TokensOf(p: Predicate, n: nat): seq<Token>
    decreases p, 1
  {
    match p
    case Compare(_, _, op, _) => Column(p) + [if op == "LIKE" then Word(op) else Symbol(op)] + [Param(n + 1)]
    case In(_, _, args) => Column(p) + ([Word("IN")] + ([LParen] + ParamTokens(n, |args|) + [RParen]))
    case NullTest(_, _, negated) =>
      Column(p) + (if negated then [Word("IS"), Word("NOT"), Word("NULL")] else [Word("IS"), Word("NULL")])
    case Constant(_, truth) => [Word(if truth then "TRUE" else "FALSE")]
    case Group(_, disjunction, children) => [LParen] + ChainTokens(children, n, disjunction) + [RParen]
    case Negation(_, children) =>
      if |children| == 1 then [Word("NOT")] + ([LParen] + TokensOf(children[0], n) + [RParen]) else []
    case ContainsFold(_, _, _) => Column(p) + [Word("ILIKE"), Param(n + 1), Word("ESCAPE"), Quoted("!")]
  }

  function ChainTokens(ps: seq<Predicate>, n: nat, disjunction: bool): seq<Token>
    decreases ps, 0
  {
    if ps == [] then [] else if |ps| == 1 then TokensOf(ps[0], n)
    else TokensOf(ps[0], n) + [Word(Connective(disjunction))] + ChainTokens(ps[1..], n + |Values(ps[0])|, disjunction)
  }

  lemma IdentifierHasNoQuote(s: string)
    requires Identifier(s)
    ensures forall i :: 0 <= i < |s| ==> s[i] != '"'
  {
  }

  lemma ColumnReads(p: Predicate)
    requires p.Compare? || p.In? || p.NullTest? || p.ContainsFold?
    requires Built(p)
    ensures Reads(Qualified(p), Column(p))
  {
    IdentifierHasNoQuote(p.table.name);
    IdentifierHasNoQuote(p.column);
    QualifiedReads(p.table.name, p.column);
  }

  /** a b, with a space between */
  lemma Followed(a: string, ts: seq<Token>, b: string, us: seq<Token>)
    requires Reads(a, ts) && Reads(b, us)
    ensures Reads(a + " " + b, ts + us)
  {
    Spaced(b, us);
    Joined(a, ts, " " + b, us);
    assert a + " " + b == a + (" " + b);
  }

  lemma OperatorReads(op: string)
    requires op in OPERATORS
    ensures Reads(op, [if op == "LIKE" then Word(op) else Symbol(op)])
  {
    if op == "LIKE" {
      WordReads(op);
    } else {
      SymbolReads(op);
    }
  }

  lemma CompareReads(p: Predicate, n: nat)
    requires Built(p) && p.Compare?
    ensures Reads(TextOf(p, n), TokensOf(p, n))
  {
    ColumnReads(p);
    OperatorReads(p.op);
    ParamReads(n + 1);
    var op := [if p.op == "LIKE" then Word(p.op) else Symbol(p.op)];
    Followed(Qualified(p), Column(p), p.op, op);
    Followed(Qualified(p) + " " + p.op, Column(p) + op, ParamText(n + 1), [Param(n + 1)]);
  }

  lemma {:induction false} ParamsRead(n: nat, count: nat)
    requires count > 0
    ensures Reads(ParamsText(n, count), ParamTokens(n, count))
    decreases count
  {
    ParamReads(n + 1);
    if count > 1 {
      ParamsRead(n + 1, count - 1);
      Listed(ParamText(n + 1), [Param(n + 1)], ParamsText(n + 1, count - 1), ParamTokens(n + 1, count - 1));
    }
  }

  lemma InReads(p: Predicate, n: nat)
    requires Built(p) && p.In?
    ensures Reads(TextOf(p, n), TokensOf(p, n))
  {
    var list, ts := "(" + ParamsText(n, |p.args|) + ")", [LParen] + ParamTokens(n, |p.args|) + [RParen];
    ColumnReads(p);
    WordReads("IN");
    ParamsRead(n, |p.args|);
    Parenthesized(ParamsText(n, |p.args|), ParamTokens(n, |p.args|));
    Followed("IN", [Word("IN")], list, ts);
    Followed(Qualified(p), Column(p), "IN" + " " + list, [Word("IN")] + ts);
    InText(Qualified(p), ParamsText(n, |p.args|));
  }

  lemma InText(q: string, list: string)
    ensures q + " IN (" + list + ")" == q + " " + ("IN" + " " + ("(" + list + ")"))
  {
    assert " IN (" == " " + "IN" + " " + "(";
  }

  lemma NullTestReads(p: Predicate, n: nat)
    requires Built(p) && p.NullTest?
    ensures Reads(TextOf(p, n), TokensOf(p, n))
  {
    var q := Qualified(p);
    ColumnReads(p);
    WordReads("IS");
    WordReads("NOT");
    WordReads("NULL");
    if p.negated {
      Followed("IS", [Word("IS")], "NOT", [Word("NOT")]);
      Followed("IS" + " " + "NOT", [Word("IS")] + [Word("NOT")], "NULL", [Word("NULL")]);
      assert "IS" + " " + "NOT" + " " + "NULL" == "IS NOT NULL";
      assert [Word("IS")] + [Word("NOT")] + [Word("NULL")] == [Word("IS"), Word("NOT"), Word("NULL")];
      Followed(q, Column(p), "IS NOT NULL", [Word("IS"), Word("NOT"), Word("NULL")]);
    } else {
      Followed("IS", [Word("IS")], "NULL", [Word("NULL")]);
      assert "IS" + " " + "NULL" == "IS NULL";
      assert [Word("IS")] + [Word("NULL")] == [Word("IS"), Word("NULL")];
      Followed(q, Column(p), "IS NULL", [Word("IS"), Word("NULL")]);
    }
  }

  lemma EscapeReads()
    ensures Reads("ESCAPE '!'", [Word("ESCAPE"), Quoted("!")])
  {
    WordReads("ESCAPE");
    QuotedReads("!");
    assert "'" + "!" + "'" == "'!'";
    Followed("ESCAPE", [Word("ESCAPE")], "'!'", [Quoted("!")]);
    assert "ESCAPE" + " " + "'!'" == "ESCAPE '!'";
    assert [Word("ESCAPE")] + [Quoted("!")] == [Word("ESCAPE"), Quoted("!")];
  }

  lemma IlikeReads(k: nat)
    ensures Reads("ILIKE" + " " + (ParamText(k) + " " + "ESCAPE '!'"), [Word("ILIKE"), Param(k), Word("ESCAPE"), Quoted("!")])
  {
    WordReads("ILIKE");
    ParamReads(k);
    EscapeReads();
    var tail := [Word("ESCAPE"), Quoted("!")];
    Followed(ParamText(k), [Param(k)], "ESCAPE '!'", tail);
    Followed("ILIKE", [Word("ILIKE")], ParamText(k) + " " + "ESCAPE '!'", [Param(k)] + tail);
    assert [Word("ILIKE")] + ([Param(k)] + tail) == [Word("ILIKE"), Param(k), Word("ESCAPE"), Quoted("!")];
  }

  lemma ContainsReads(p: Predicate, n: nat)
    requires Built(p) && p.ContainsFold?
    ensures Reads(TextOf(p, n), TokensOf(p, n))
  {
    var test := "ILIKE" + " " + (ParamText(n + 1) + " " + "ESCAPE '!'");
    ColumnReads(p);
    IlikeReads(n + 1);
    Followed(Qualified(p), Column(p), test, [Word("ILIKE"), Param(n + 1), Word("ESCAPE"), Quoted("!")]);
    assert TextOf(p, n) == Qualified(p) + " " + test;
  }

  lemma {:induction false} TextReads(p: Predicate, n: nat, table: TableRef)
    requires Built(p) && Compiles(p, table)
    ensures Reads(TextOf(p, n), TokensOf(p, n))
    decreases p, 1
  {
    match p
    case Compare(_, _, _, _) => CompareReads(p, n);
    case In(_, _, _) => InReads(p, n);
    case NullTest(_, _, _) => NullTestReads(p, n);
    case ContainsFold(_, _, _) => ContainsReads(p, n);
    case Constant(_, truth) => WordReads(if truth then "TRUE" else "FALSE");
    case Group(_, disjunction, children) =>
      ChainReads(children, n, table, disjunction);
      Parenthesized(Join(TextsOf(children, n), Separator(disjunction)), ChainTokens(children, n, disjunction));
    case Negation(_, children) =>
      var c := children[0];
      TextReads(c, n, table);
      Parenthesized(TextOf(c, n), TokensOf(c, n));
      WordReads("NOT");
      Followed("NOT", [Word("NOT")], "(" + TextOf(c, n) + ")", [LParen] + TokensOf(c, n) + [RParen]);
      assert TextOf(p, n) == "NOT" + " " + ("(" + TextOf(c, n) + ")");
  }

  lemma {:induction false} ChainReads(ps: seq<Predicate>, n: nat, table: TableRef, disjunction: bool)
    requires ps != [] && forall i :: 0 <= i < |ps| ==> Built(ps[i]) && Compiles(ps[i], table)
    ensures Reads(Join(TextsOf(ps, n), Separator(disjunction)), ChainTokens(ps, n, disjunction))
    decreases ps, 0
  {
    TextReads(ps[0], n, table);
    if |ps| == 1 {
      JoinOne(ps, n, disjunction);
    } else {
      var m := n + |Values(ps[0])|;
      ChainReads(ps[1..], m, table, disjunction);
      JoinStep(ps, n, disjunction);
      ChainStep(TextOf(ps[0], n), TokensOf(ps[0], n), Join(TextsOf(ps[1..], m), Separator(disjunction)),
                ChainTokens(ps[1..], m, disjunction), disjunction,
                Join(TextsOf(ps, n), Separator(disjunction)), ChainTokens(ps, n, disjunction));
    }
  }

  lemma ChainStep(head: string, ts: seq<Token>, tail: string, us: seq<Token>, disjunction: bool, whole: string, vs: seq<Token>)
    requires Reads(head, ts) && Reads(tail, us)
    requires whole == head + " " + Connective(disjunction) + " " + tail
    requires vs == ts + [Word(Connective(disjunction))] + us
    ensures Reads(whole, vs)
  {
    Infix(head, ts, Connective(disjunction), tail, us);
  }

  lemma JoinOne(ps: seq<Predicate>, n: nat, disjunction: bool)
    requires |ps| == 1
    ensures Join(TextsOf(ps, n), Separator(disjunction)) == TextOf(ps[0], n)
    ensures ChainTokens(ps, n, disjunction) == TokensOf(ps[0], n)
  {
    assert TextsOf(ps, n)[0] == TextOf(ps[0], n);
  }

  lemma JoinStep(ps: seq<Predicate>, n: nat, disjunction: bool)
    requires |ps| > 1
    ensures Join(TextsOf(ps, n), Separator(disjunction)) ==
              TextOf(ps[0], n) + " " + Connective(disjunction) + " "
              + Join(TextsOf(ps[1..], n + |Values(ps[0])|), Separator(disjunction))
    ensures ChainTokens(ps, n, disjunction) ==
              TokensOf(ps[0], n) + [Word(Connective(disjunction))] + ChainTokens(ps[1..], n + |Values(ps[0])|, disjunction)
  {
    var head, tail := TextOf(ps[0], n), Join(TextsOf(ps[1..], n + |Values(ps[0])|), Separator(disjunction));
    assert TextsOf(ps, n)[1..] == TextsOf(ps[1..], n + |Values(ps[0])|);
    assert Separator(disjunction) == " " + Connective(disjunction) + " ";
    assert head + (" " + Connective(disjunction) + " ") + tail == head + " " + Connective(disjunction) + " " + tail;
  }
}
