/** The pattern that `ContainsFold` binds, and what LIKE makes of it. */
module LikePattern {

  const ESCAPE := '!'

  predicate Special(c: char) { c == '!' || c == '%' || c == '_' }

  /** The replacer: every special character gets the escape character before it. */
  function Escape(literal: string): string {
    if literal == "" then ""
    else (if Special(literal[0]) then [ESCAPE, literal[0]] else [literal[0]]) + Escape(literal[1..])
  }

  function ContainsPattern(literal: string): string {
    "%" + Escape(literal) + "%"
  }

  /** In an accepted pattern the escape character always precedes a special one
      (ISO/IEC 9075-2, section 8.5). */
  predicate WellEscaped(p: string) {
    if p == "" then true
    else if p[0] == ESCAPE then |p| > 1 && Special(p[1]) && WellEscaped(p[2..])
    else WellEscaped(p[1..])
  }

  /** LIKE ... ESCAPE '!', with characters compared after folding (ILIKE). */
  predicate Like(p: string, s: string, fold: char -> char)
    decreases |p|
  {
    if p == "" then s == ""
    else if p[0] == '%' then exists k :: 0 <= k <= |s| && Like(p[1..], s[k..], fold)
    else if p[0] == '_' then s != "" && Like(p[1..], s[1..], fold)
    else if p[0] == ESCAPE then |p| > 1 && s != "" && fold(p[1]) == fold(s[0]) && Like(p[2..], s[1..], fold)
    else s != "" && fold(p[0]) == fold(s[0]) && Like(p[1..], s[1..], fold)
  }

  predicate StartsWith(s: string, literal: string, fold: char -> char) {
    |literal| <= |s| && forall i :: 0 <= i < |literal| ==> fold(s[i]) == fold(literal[i])
  }

  predicate Contains(s: string, literal: string, fold: char -> char) {
    exists k :: 0 <= k <= |s| && StartsWith(s[k..], literal, fold)
  }

  lemma StartsWithStep(s: string, literal: string, fold: char -> char)
    requires s != "" && literal != ""
    ensures StartsWith(s, literal, fold) <==> fold(s[0]) == fold(literal[0]) && StartsWith(s[1..], literal[1..], fold)
  {
    if fold(s[0]) == fold(literal[0]) && StartsWith(s[1..], literal[1..], fold) {
      forall i | 0 <= i < |literal| ensures fold(s[i]) == fold(literal[i]) {
        if i > 0 { assert s[i] == s[1..][i - 1] && literal[i] == literal[1..][i - 1]; }
      }
    }
  }

  lemma LikePlain(c: char, tail: string, s: string, fold: char -> char)
    requires !Special(c)
    ensures Like([c] + tail, s, fold) <==> s != "" && fold(c) == fold(s[0]) && Like(tail, s[1..], fold)
  {
    assert ([c] + tail)[1..] == tail;
  }

  lemma LikeEscaped(c: char, tail: string, s: string, fold: char -> char)
    ensures Like([ESCAPE, c] + tail, s, fold) <==> s != "" && fold(c) == fold(s[0]) && Like(tail, s[1..], fold)
  {
    assert ([ESCAPE, c] + tail)[2..] == tail;
  }

  /** The first character of an escaped literal is matched against itself, up to folding. */
  lemma EscapedHead(literal: string, rest: string, s: string, fold: char -> char)
    requires literal != ""
    ensures Like(Escape(literal) + rest, s, fold) <==>
              s != "" && fold(literal[0]) == fold(s[0]) && Like(Escape(literal[1..]) + rest, s[1..], fold)
  {
    var c, tail := literal[0], Escape(literal[1..]) + rest;
    EscapeStep(literal, rest);
    if Special(c) {
      LikeEscaped(c, tail, s, fold);
    } else {
      LikePlain(c, tail, s, fold);
    }
  }

  lemma EscapeStep(literal: string, rest: string)
    requires literal != ""
    ensures Escape(literal) + rest
         == (if Special(literal[0]) then [ESCAPE, literal[0]] else [literal[0]]) + (Escape(literal[1..]) + rest)
  {
  }

  /** An escaped literal matches exactly itself, up to folding, and nothing more. */
  lemma {:induction false} EscapedMatchesLiteral(literal: string, rest: string, s: string, fold: char -> char)
    ensures Like(Escape(literal) + rest, s, fold) <==>
              StartsWith(s, literal, fold) && Like(rest, s[|literal|..], fold)
    decreases |literal|
  {
    if literal == "" {
      assert Escape(literal) + rest == rest;
      assert s[0..] == s;
    } else {
      EscapedHead(literal, rest, s, fold);
      if s != "" {
        EscapedMatchesLiteral(literal[1..], rest, s[1..], fold);
        StartsWithStep(s, literal, fold);
        assert |literal| <= |s| ==> s[1..][|literal| - 1..] == s[|literal|..];
      }
    }
  }

  lemma AnythingMatchesPercent(s: string, fold: char -> char)
    ensures Like("%", s, fold)
  {
    assert Like("%"[1..], s[|s|..], fold);
  }

  /** The bound pattern accepts exactly the strings that contain the literal. */
  lemma ContainsPatternIsContains(literal: string, s: string, fold: char -> char)
    ensures Like(ContainsPattern(literal), s, fold) <==> Contains(s, literal, fold)
  {
    var p := ContainsPattern(literal);
    assert p[0] == '%' && p[1..] == Escape(literal) + "%";
    forall k | 0 <= k <= |s|
      ensures Like(p[1..], s[k..], fold) <==> StartsWith(s[k..], literal, fold)
    {
      EscapedMatchesLiteral(literal, "%", s[k..], fold);
      if StartsWith(s[k..], literal, fold) {
        AnythingMatchesPercent(s[k..][|literal|..], fold);
      }
    }
  }

  lemma {:induction false} EscapedIsWellEscaped(literal: string, rest: string)
    requires WellEscaped(rest)
    ensures WellEscaped(Escape(literal) + rest)
  {
    if literal == "" {
      assert Escape(literal) + rest == rest;
    } else {
      EscapedIsWellEscaped(literal[1..], rest);
      EscapeStep(literal, rest);
      var tail := Escape(literal[1..]) + rest;
      assert ([ESCAPE, literal[0]] + tail)[2..] == tail && ([literal[0]] + tail)[1..] == tail;
    }
  }

  /** ... and PostgreSQL never refuses it, whatever the literal holds. */
  lemma ContainsPatternIsAccepted(literal: string)
    ensures WellEscaped(ContainsPattern(literal))
  {
    EscapedIsWellEscaped(literal, "%");
    assert ContainsPattern(literal)[1..] == Escape(literal) + "%";
  }
}
