/** Reading the part of PostgreSQL that predicates are written in: the words of a
    boolean expression, and the expression they spell. */
module SqlText {
  import opened Basics
  import opened Decimals

  // ---- words -----------------------------------------------------------------

  datatype Token =
    | LParen | RParen | Comma | Dot
    | Ident(name: string)      // "name"
    | Quoted(text: string)     // 'text'
    | Param(k: nat)            // $k
    | Word(word: string)       // AND, IN, ...
    | Symbol(symbol: string)   // =, <>, ...

  predicate IsUpper(c: char) { 'A' <= c <= 'Z' }
  predicate IsSymbol(c: char) { c == '<' || c == '=' || c == '>' }

  datatype Class = Digits | Letters | Symbols | UpTo(stop: char)

  predicate InClass(class_: Class, c: char) {
    match class_
    case Digits => IsDigit(c)
    case Letters => IsUpper(c)
    case Symbols => IsSymbol(c)
    case UpTo(stop) => c != stop
  }

  /** The length of the longest prefix inside the class. */
  function Span(class_: Class, s: string): (n: nat)
    ensures n <= |s| && (forall i :: 0 <= i < n ==> InClass(class_, s[i])) && (n < |s| ==> !InClass(class_, s[n]))
  {
    if s != "" && InClass(class_, s[0]) then 1 + Span(class_, s[1..]) else 0
  }

  function Lex(s: string): Option<seq<Token>>
    decreases |s|
  {
    if s == "" then Some([])
    else
      var c, rest := s[0], s[1..];
      if c == ' ' then Lex(rest)
      else if c == '(' then Cons(LParen, Lex(rest))
      else if c == ')' then Cons(RParen, Lex(rest))
      else if c == ',' then Cons(Comma, Lex(rest))
      else if c == '.' then Cons(Dot, Lex(rest))
      else if c == '"' || c == '\'' then
        var n := Span(UpTo(c), rest);
        if n == |rest| then None
        else Cons(if c == '"' then Ident(rest[..n]) else Quoted(rest[..n]), Lex(rest[n + 1..]))
      else if c == '$' then
        var n := Span(Digits, rest);
        if n == 0 then None else Cons(Param(Value(rest[..n])), Lex(rest[n..]))
      else if IsUpper(c) then
        var n := Span(Letters, s);
        Cons(Word(s[..n]), Lex(s[n..]))
      else if IsSymbol(c) then
        var n := Span(Symbols, s);
        Cons(Symbol(s[..n]), Lex(s[n..]))
      else None
  }

  function Cons(t: Token, ts: Option<seq<Token>>): Option<seq<Token>> {
    if ts.Some? then Some([t] + ts.value) else None
  }

  function Prepend(ts: seq<Token>, more: Option<seq<Token>>): Option<seq<Token>> {
    if more.Some? then Some(ts + more.value) else None
  }

  /** What may follow a word or a number without becoming part of it. */
  predicate Delimited(rest: string) {
    rest != "" ==> rest[0] == ' ' || rest[0] == ')' || rest[0] == ',' || rest[0] == '('
  }

  /** `text` reads as the words `ts`, whatever properly delimited text follows. */
  ghost predicate Reads(text: string, ts: seq<Token>) {
    forall rest {:trigger Lex(text + rest)} :: Delimited(rest) ==> Lex(text + rest) == Prepend(ts, Lex(rest))
  }

  lemma {:induction false} SpanOfPrefix(class_: Class, a: string, b: string)
    requires forall i :: 0 <= i < |a| ==> InClass(class_, a[i])
    requires b != "" ==> !InClass(class_, b[0])
    ensures Span(class_, a + b) == |a|
  {
    if a == "" {
      assert a + b == b;
    } else {
      SpanOfPrefix(class_, a[1..], b);
      assert (a + b)[0] == a[0] && (a + b)[1..] == a[1..] + b;
    }
  }

  lemma WordReads(w: string)
    requires w != "" && forall i :: 0 <= i < |w| ==> IsUpper(w[i])
    ensures Reads(w, [Word(w)])
  {
    forall rest | Delimited(rest) ensures Lex(w + rest) == Prepend([Word(w)], Lex(rest)) {
      SpanOfPrefix(Letters, w, rest);
      var s := w + rest;
      assert s[0] == w[0] && s[..|w|] == w && s[|w|..] == rest;
    }
  }

  lemma SymbolReads(w: string)
    requires w != "" && forall i :: 0 <= i < |w| ==> IsSymbol(w[i])
    ensures Reads(w, [Symbol(w)])
  {
    forall rest | Delimited(rest) ensures Lex(w + rest) == Prepend([Symbol(w)], Lex(rest)) {
      SpanOfPrefix(Symbols, w, rest);
      var s := w + rest;
      assert s[0] == w[0] && s[..|w|] == w && s[|w|..] == rest;
    }
  }

  lemma ParamReads(k: nat)
    ensures Reads("$" + Itoa(k), [Param(k)])
  {
    var digits := Itoa(k);
    ValueOfItoa(k);
    forall rest | Delimited(rest) ensures Lex("$" + digits + rest) == Prepend([Param(k)], Lex(rest)) {
      SpanOfPrefix(Digits, digits, rest);
      var s := "$" + digits + rest;
      assert s[1..] == digits + rest && s[1..][..|digits|] == digits && s[1..][|digits|..] == rest;
    }
  }

  /** A quoted piece ends by itself: anything may follow it. */
  lemma QuotedLexes(q: char, body: string, rest: string)
    requires q == '"' || q == '\''
    requires forall i :: 0 <= i < |body| ==> body[i] != q
    ensures Lex([q] + body + [q] + rest) == Prepend([if q == '"' then Ident(body) else Quoted(body)], Lex(rest))
  {
    var s := [q] + body + [q] + rest;
    assert s[1..] == body + ([q] + rest);
    SpanOfPrefix(UpTo(q), body, [q] + rest);
    assert s[1..][..|body|] == body && s[1..][|body| + 1..] == rest;
  }

  lemma SpaceSkipped(rest: string)
    ensures Lex(" " + rest) == Lex(rest)
  {
    assert (" " + rest)[1..] == rest;
  }

  lemma PrependTwice(ts: seq<Token>, us: seq<Token>, more: Option<seq<Token>>)
    ensures Prepend(ts, Prepend(us, more)) == Prepend(ts + us, more)
  {
    if more.Some? {
      assert ts + (us + more.value) == ts + us + more.value;
    }
  }

  lemma Joined(a: string, ts: seq<Token>, b: string, us: seq<Token>)
    requires Reads(a, ts) && Reads(b, us) && b != "" && Delimited(b)
    ensures Reads(a + b, ts + us)
  {
    forall rest | Delimited(rest) ensures Lex(a + b + rest) == Prepend(ts + us, Lex(rest)) {
      var more := b + rest;
      assert a + b + rest == a + more && more[0] == b[0];
      PrependTwice(ts, us, Lex(rest));
    }
  }

  lemma MarkLexes(c: char, t: Token, rest: string)
    requires (c == '(' && t == LParen) || (c == ')' && t == RParen) || (c == ',' && t == Comma) || (c == '.' && t == Dot)
    ensures Lex([c] + rest) == Prepend([t], Lex(rest))
  {
    assert ([c] + rest)[1..] == rest;
  }

  lemma Spaced(a: string, ts: seq<Token>)
    requires Reads(a, ts)
    ensures Reads(" " + a, ts) && Delimited(" " + a)
  {
    forall rest | Delimited(rest) ensures Lex(" " + a + rest) == Prepend(ts, Lex(rest)) {
      assert " " + a + rest == " " + (a + rest);
      SpaceSkipped(a + rest);
    }
  }

  lemma Marked(c: char, t: Token, a: string, ts: seq<Token>)
    requires (c == '(' && t == LParen) || (c == ')' && t == RParen) || (c == ',' && t == Comma) || (c == '.' && t == Dot)
    requires Reads(a, ts)
    ensures Reads([c] + a, [t] + ts)
  {
    forall rest | Delimited(rest) ensures Lex([c] + a + rest) == Prepend([t] + ts, Lex(rest)) {
      var more := a + rest;
      assert [c] + a + rest == [c] + more;
      MarkLexes(c, t, more);
      PrependTwice([t], ts, Lex(rest));
    }
  }

  lemma NothingReads()
    ensures Reads("", [])
  {
    forall rest | Delimited(rest) ensures Lex("" + rest) == Prepend([], Lex(rest)) {
      assert "" + rest == rest;
      if Lex(rest).Some? {
        assert [] + Lex(rest).value == Lex(rest).value;
      }
    }
  }

  lemma Closed(a: string, ts: seq<Token>)
    requires Reads(a, ts)
    ensures Reads(a + ")", ts + [RParen])
  {
    NothingReads();
    Marked(')', RParen, "", []);
    assert [')'] + "" == ")" && [RParen] + [] == [RParen];
    Joined(a, ts, ")", [RParen]);
  }

  lemma Parenthesized(a: string, ts: seq<Token>)
    requires Reads(a, ts)
    ensures Reads("(" + a + ")", [LParen] + ts + [RParen]) && Delimited("(" + a + ")")
  {
    Marked('(', LParen, a, ts);
    Closed("(" + a, [LParen] + ts);
  }

  /** a, b */
  lemma Listed(a: string, ts: seq<Token>, b: string, us: seq<Token>)
    requires Reads(a, ts) && Reads(b, us)
    ensures Reads(a + ", " + b, ts + [Comma] + us)
  {
    Spaced(b, us);
    Marked(',', Comma, " " + b, us);
    var c := [','] + (" " + b);
    Joined(a, ts, c, [Comma] + us);
    assert a + ", " + b == a + c && ts + [Comma] + us == ts + ([Comma] + us);
  }

  /** a WORD b */
  lemma Infix(a: string, ts: seq<Token>, w: string, b: string, us: seq<Token>)
    requires Reads(a, ts) && Reads(b, us)
    requires w != "" && forall i :: 0 <= i < |w| ==> IsUpper(w[i])
    ensures Reads(a + " " + w + " " + b, ts + [Word(w)] + us)
  {
    WordReads(w);
    Spaced(w, [Word(w)]);
    Joined(a, ts, " " + w, [Word(w)]);
    Spaced(b, us);
    Joined(a + (" " + w), ts + [Word(w)], " " + b, us);
    assert a + " " + w + " " + b == a + (" " + w) + (" " + b);
  }

  lemma QualifiedReads(table: string, column: string)
    requires forall i :: 0 <= i < |table| ==> table[i] != '"'
    requires forall i :: 0 <= i < |column| ==> column[i] != '"'
    ensures Reads("\"" + table + "\".\"" + column + "\"", [Ident(table), Dot, Ident(column)])
  {
    var text := "\"" + table + "\".\"" + column + "\"";
    forall rest | Delimited(rest) ensures Lex(text + rest) == Prepend([Ident(table), Dot, Ident(column)], Lex(rest)) {
      var second := ['"'] + column + ['"'] + rest;
      QuotedLexes('"', column, rest);
      MarkLexes('.', Dot, second);
      QuotedLexes('"', table, ['.'] + second);
      assert text + rest == ['"'] + table + ['"'] + (['.'] + second);
      PrependTwice([Dot], [Ident(column)], Lex(rest));
      PrependTwice([Ident(table)], [Dot] + [Ident(column)], Lex(rest));
      assert [Ident(table)] + ([Dot] + [Ident(column)]) == [Ident(table), Dot, Ident(column)];
    }
  }

  lemma QuotedReads(body: string)
    requires forall i :: 0 <= i < |body| ==> body[i] != '\''
    ensures Reads("'" + body + "'", [Quoted(body)])
  {
    forall rest | Delimited(rest) ensures Lex("'" + body + "'" + rest) == Prepend([Quoted(body)], Lex(rest)) {
      QuotedLexes('\'', body, rest);
    }
  }
}
