/** SQL LIKE: tokeniser and single-backtrack matcher (crates/elyra-engine/src/predicate.rs, like_eval). */
module Like {
  import opened Wrappers

  datatype Token = Lit(c: char) | Any | One

  /** One pattern character outside an escape. */
  function Plain(c: char): Token {
    if c == '%' then Any else if c == '_' then One else Lit(c)
  }

  predicate Escapes(p: string, esc: Option<char>) {
    |p| > 1 && esc == Some(p[0])
  }

  function Tokens(p: string, esc: Option<char>): seq<Token> {
    if p == [] then []
    else if Escapes(p, esc) then [Lit(p[1])] + Tokens(p[2..], esc)
    else [Plain(p[0])] + Tokens(p[1..], esc)
  }

  /**
   * The meaning of LIKE, on the pattern itself: `%` matches any run, `_` one character, an escape
   * character makes the next character literal. A trailing escape character stands for itself.
   */
  ghost predicate Matches(p: string, esc: Option<char>, t: string)
    decreases |p|
  {
    if p == [] then t == []
    else if Escapes(p, esc) then t != [] && t[0] == p[1] && Matches(p[2..], esc, t[1..])
    else if p[0] == '%' then exists k | 0 <= k <= |t| :: Matches(p[1..], esc, t[k..])
    else if p[0] == '_' then t != [] && Matches(p[1..], esc, t[1..])
    else t != [] && t[0] == p[0] && Matches(p[1..], esc, t[1..])
  }

  /** The same meaning on a tokenised pattern. */
  ghost predicate Fits(toks: seq<Token>, t: string)
    decreases |toks|
  {
    if toks == [] then t == []
    else if toks[0].Any? then exists k | 0 <= k <= |t| :: Fits(toks[1..], t[k..])
    else t != [] && (toks[0].One? || toks[0].c == t[0]) && Fits(toks[1..], t[1..])
  }

  lemma {:induction false} TokensMean(p: string, esc: Option<char>, t: string)
    ensures Fits(Tokens(p, esc), t) <==> Matches(p, esc, t)
    decreases |p|
  {
    if p != [] {
      var toks := Tokens(p, esc);
      if Escapes(p, esc) {
        assert toks[1..] == Tokens(p[2..], esc);
        if t != [] {
          TokensMean(p[2..], esc, t[1..]);
        }
      } else {
        assert toks[1..] == Tokens(p[1..], esc);
        forall k | 0 <= k <= |t| ensures Fits(toks[1..], t[k..]) <==> Matches(p[1..], esc, t[k..]) {
          TokensMean(p[1..], esc, t[k..]);
        }
      }
    }
  }

  // ------------------------------------------------- why one remembered `%` is enough

  ghost predicate NoAny(toks: seq<Token>) {
    forall x | x in toks :: !x.Any?
  }

  /** Tokens without `%` consume exactly as many characters as there are tokens. */
  lemma {:induction false} FixedPrefix(a: seq<Token>, b: seq<Token>, t: string)
    requires NoAny(a) && Fits(a + b, t)
    ensures |a| <= |t| && Fits(b, t[|a|..])
    decreases |a|
  {
    if a == [] {
      assert a + b == b;
      assert t[0..] == t;
    } else {
      assert (a + b)[1..] == a[1..] + b;
      assert a[0] in a && forall x | x in a[1..] :: x in a;
      FixedPrefix(a[1..], b, t[1..]);
      assert t[1..][|a| - 1..] == t[|a|..];
    }
  }

  /** A pattern starting with `%` that fits a suffix also fits every longer suffix. */
  lemma {:induction false} AnyAbsorbs(toks: seq<Token>, t: string, i: nat, j: nat)
    requires toks != [] && toks[0].Any? && i <= j <= |t|
    requires Fits(toks, t[j..])
    ensures Fits(toks, t[i..])
  {
    var k :| 0 <= k <= |t[j..]| && Fits(toks[1..], t[j..][k..]);
    assert t[j..][k..] == t[i..][j - i + k..];
  }

  /** A later attempt at the last `%`, from a text position beyond `mark`. */
  ghost predicate Retry(toks: seq<Token>, t: string, star: int, mark: nat)
    requires -1 <= star < |toks|
  {
    star >= 0 && exists k | mark < k <= |t| :: Fits(toks[star + 1..], t[k..])
  }

  /** Reaching a new `%` makes every earlier choice for the previous `%` redundant. */
  lemma {:induction false} NewStarSuffices(toks: seq<Token>, t: string, star: int, mark: nat, ti: nat, pi: nat)
    requires -1 <= star < pi < |toks| && ti <= |t| && toks[pi].Any?
    requires star >= 0 ==> mark <= ti && pi - (star + 1) == ti - mark && NoAny(toks[star + 1..pi])
    requires Retry(toks, t, star, mark)
    ensures Fits(toks[pi..], t[ti..])
  {
    var k :| mark < k <= |t| && Fits(toks[star + 1..], t[k..]);
    assert toks[star + 1..] == toks[star + 1..pi] + toks[pi..];
    FixedPrefix(toks[star + 1..pi], toks[pi..], t[k..]);
    var used := pi - (star + 1);
    assert t[k..][used..] == t[k + used..];
    AnyAbsorbs(toks[pi..], t, ti, k + used);
  }

  /** With the text used up, no later attempt can fit: it would have fewer characters left than tokens. */
  lemma {:induction false} NoRetryAtEnd(toks: seq<Token>, t: string, star: int, mark: nat, pi: nat)
    requires -1 <= star < |toks| && star < pi <= |toks|
    requires star >= 0 ==> mark <= |t| && pi - (star + 1) == |t| - mark && NoAny(toks[star + 1..pi])
    ensures !Retry(toks, t, star, mark)
  {
    if Retry(toks, t, star, mark) {
      var k :| mark < k <= |t| && Fits(toks[star + 1..], t[k..]);
      assert toks[star + 1..] == toks[star + 1..pi] + toks[pi..];
      FixedPrefix(toks[star + 1..pi], toks[pi..], t[k..]);
    }
  }

  lemma {:induction false} RetryStep(toks: seq<Token>, t: string, star: nat, mark: nat)
    requires star < |toks| && mark < |t|
    ensures Retry(toks, t, star, mark) <==> Fits(toks[star + 1..], t[mark + 1..]) || Retry(toks, t, star, mark + 1)
  {
  }

  lemma {:induction false} EmptyTextFits(toks: seq<Token>)
    ensures Fits(toks, []) <==> forall x | x in toks :: x.Any?
  {
    if toks != [] {
      EmptyTextFits(toks[1..]);
      if toks[0].Any? {
        if Fits(toks[1..], []) {
          var empty: string := [];
          assert Fits(toks[1..], empty[0..]);
        }
      }
      assert forall x | x in toks :: x == toks[0] || x in toks[1..];
    }
  }

  // -------------------------------------------------------------- the two loops

  lemma {:induction false} TokensStep(p: string, esc: Option<char>, i: nat, toks: seq<Token>)
    requires i < |p|
    ensures toks + Tokens(p[i..], esc) ==
            if Some(p[i]) == esc && i + 1 < |p| then (toks + [Lit(p[i + 1])]) + Tokens(p[i + 2..], esc)
            else (toks + [Plain(p[i])]) + Tokens(p[i + 1..], esc)
  {
    var s := p[i..];
    assert s[1..] == p[i + 1..];
    if Some(p[i]) == esc && i + 1 < |p| {
      assert s[2..] == p[i + 2..];
    }
  }

  method Tokenise(p: string, esc: Option<char>) returns (toks: seq<Token>)
    ensures toks == Tokens(p, esc)
  {
    toks := [];
    var i := 0;
    while i < |p|
      invariant 0 <= i <= |p|
      invariant toks + Tokens(p[i..], esc) == Tokens(p, esc)
    {
      var c := p[i];
      TokensStep(p, esc, i, toks);
      if Some(c) == esc && i + 1 < |p| {
        toks := toks + [Lit(p[i + 1])];
        i := i + 2;
      } else {
        toks := toks + [Plain(c)];
        i := i + 1;
      }
    }
  }

  /** Right after a `%`: fit here, or at a later text position. */
  lemma {:induction false} RestartAt(toks: seq<Token>, t: string, pi: nat, ti: nat)
    requires 0 < pi <= |toks| && toks[pi - 1].Any? && ti <= |t|
    ensures Fits(toks[pi - 1..], t[ti..]) <==> Fits(toks[pi..], t[ti..]) || Retry(toks, t, pi - 1, ti)
  {
    assert toks[pi - 1..][1..] == toks[pi..];
    if Fits(toks[pi - 1..], t[ti..]) {
      var k :| 0 <= k <= |t[ti..]| && Fits(toks[pi..], t[ti..][k..]);
      assert t[ti..][k..] == t[ti + k..];
    }
    if Fits(toks[pi..], t[ti..]) {
      assert t[ti..][0..] == t[ti..];
    }
    if Retry(toks, t, pi - 1, ti) {
      var k :| ti < k <= |t| && Fits(toks[pi..], t[k..]);
      assert t[ti..][k - ti..] == t[k..];
    }
  }

  /** What the matching loop keeps: the answer is a fit of the rest, or a later attempt at the last `%`. */
  ghost predicate Inv(toks: seq<Token>, t: string, ti: int, pi: int, star: int, mark: int) {
    && 0 <= ti <= |t| && 0 <= pi <= |toks| && -1 <= star < pi && star < |toks| && 0 <= mark
    && (star >= 0 ==> mark <= ti && pi - (star + 1) == ti - mark && NoAny(toks[star + 1..pi]))
    && (Fits(toks, t) <==> Fits(toks[pi..], t[ti..]) || Retry(toks, t, star, mark))
  }

  lemma {:induction false} AtStar(toks: seq<Token>, t: string, ti: int, pi: int, star: int, mark: int)
    requires Inv(toks, t, ti, pi, star, mark) && pi < |toks| && toks[pi].Any?
    ensures Inv(toks, t, ti, pi + 1, pi, ti)
  {
    if Retry(toks, t, star, mark) {
      NewStarSuffices(toks, t, star, mark, ti, pi);
    }
    RestartAt(toks, t, pi + 1, ti);
  }

  lemma {:induction false} AtMatch(toks: seq<Token>, t: string, ti: int, pi: int, star: int, mark: int)
    requires Inv(toks, t, ti, pi, star, mark) && pi < |toks| && ti < |t|
    requires !toks[pi].Any? && (toks[pi].One? || toks[pi].c == t[ti])
    ensures Inv(toks, t, ti + 1, pi + 1, star, mark)
  {
    assert toks[pi..][1..] == toks[pi + 1..] && t[ti..][1..] == t[ti + 1..];
    assert star >= 0 ==> toks[star + 1..pi + 1] == toks[star + 1..pi] + [toks[pi]];
  }

  lemma {:induction false} AtMismatch(toks: seq<Token>, t: string, ti: int, pi: int, star: int, mark: int)
    requires Inv(toks, t, ti, pi, star, mark) && ti < |t|
    requires pi < |toks| ==> !toks[pi].Any? && !toks[pi].One? && toks[pi].c != t[ti]
    ensures star == -1 ==> !Fits(toks, t)
    ensures star >= 0 ==> Inv(toks, t, mark + 1, star + 1, star, mark + 1)
  {
    assert !Fits(toks[pi..], t[ti..]);
    if star >= 0 {
      RetryStep(toks, t, star, mark);
    }
  }

  /** The backtracking loop; `star == -1` is the source's `usize::MAX`. */
  method Run(toks: seq<Token>, t: string) returns (ok: bool)
    ensures ok <==> Fits(toks, t)
  {
    var ti, pi := 0, 0;
    var star, mark := -1, 0;
    assert toks[0..] == toks && t[0..] == t;
    while ti < |t|
      invariant Inv(toks, t, ti, pi, star, mark)
      decreases |toks| - star, |t| - mark, |t| - ti
    {
      if pi < |toks| && toks[pi].Any? {
        AtStar(toks, t, ti, pi, star, mark);
        star, mark, pi := pi, ti, pi + 1;
        continue;
      }
      if pi < |toks| && (toks[pi].One? || toks[pi].c == t[ti]) {
        AtMatch(toks, t, ti, pi, star, mark);
        ti, pi := ti + 1, pi + 1;
        continue;
      }
      AtMismatch(toks, t, ti, pi, star, mark);
      if star == -1 {
        return false;
      }
      pi := star + 1;
      mark := mark + 1;
      ti := mark;
    }
    NoRetryAtEnd(toks, t, star, mark, pi);
    assert t[ti..] == [];
    ok := RestIsAny(toks, pi);
  }

  /** The trailing loop: an exhausted text fits when only `%` is left. */
  method RestIsAny(toks: seq<Token>, from: nat) returns (ok: bool)
    requires from <= |toks|
    ensures ok <==> Fits(toks[from..], [])
  {
    EmptyTextFits(toks[from..]);
    var pi := from;
    while pi < |toks| && toks[pi].Any?
      invariant from <= pi <= |toks|
      invariant forall x | x in toks[from..pi] :: x.Any?
    {
      assert toks[from..pi + 1] == toks[from..pi] + [toks[pi]];
      pi := pi + 1;
    }
    assert pi < |toks| ==> toks[pi] in toks[from..];
    assert pi == |toks| ==> toks[from..pi] == toks[from..];
    ok := pi == |toks|;
  }

  function Folded(fold: char -> char, s: string): (r: string)
    ensures |r| == |s| && forall i | 0 <= i < |s| :: r[i] == fold(s[i])
  {
    seq(|s|, i requires 0 <= i < |s| => fold(s[i]))
  }

  function FoldedEscape(fold: char -> char, esc: Option<char>): Option<char> {
    match esc case None => None case Some(c) => Some(fold(c))
  }

  /** `like_eval`: text, pattern and escape character are folded first, then matched. */
  method LikeEval(text: string, pattern: string, esc: Option<char>, fold: char -> char) returns (ok: bool)
    ensures ok <==> Matches(Folded(fold, pattern), FoldedEscape(fold, esc), Folded(fold, text))
  {
    var t := Folded(fold, text);
    var p := Folded(fold, pattern);
    var e := FoldedEscape(fold, esc);
    var toks := Tokenise(p, e);
    ok := Run(toks, t);
    TokensMean(p, e, t);
  }

  // ---------------------------------------- folding the pattern against folding comparisons

  /** LIKE on the pattern as written: only the comparison of two literal characters folds. */
  ghost predicate MatchesUpTo(fold: char -> char, p: string, esc: Option<char>, t: string)
    decreases |p|
  {
    if p == [] then t == []
    else if Escapes(p, esc) then t != [] && fold(t[0]) == fold(p[1]) && MatchesUpTo(fold, p[2..], esc, t[1..])
    else if p[0] == '%' then exists k | 0 <= k <= |t| :: MatchesUpTo(fold, p[1..], esc, t[k..])
    else if p[0] == '_' then t != [] && MatchesUpTo(fold, p[1..], esc, t[1..])
    else t != [] && fold(t[0]) == fold(p[0]) && MatchesUpTo(fold, p[1..], esc, t[1..])
  }

  /** What `like_eval` computes, as a predicate. */
  ghost predicate LikeEvalResult(fold: char -> char, p: string, esc: Option<char>, t: string) {
    Matches(Folded(fold, p), FoldedEscape(fold, esc), Folded(fold, t))
  }

  /** The fold neither makes nor unmakes a wildcard or an escape character. */
  ghost predicate KeepsSyntax(fold: char -> char, esc: Option<char>) {
    forall c: char :: KeepsSyntaxOf(fold, esc, c)
  }

  lemma {:induction false} SyntaxKeptAgrees(fold: char -> char, p: string, esc: Option<char>, t: string)
    requires KeepsSyntax(fold, esc)
    ensures LikeEvalResult(fold, p, esc, t) <==> MatchesUpTo(fold, p, esc, t)
    decreases |p|
  {
    if p != [] {
      var fp, fe, ft := Folded(fold, p), FoldedEscape(fold, esc), Folded(fold, t);
      assert KeepsSyntaxOf(fold, esc, p[0]);
      if Escapes(p, esc) {
        assert fp[2..] == Folded(fold, p[2..]);
        if t != [] {
          assert ft[1..] == Folded(fold, t[1..]);
          SyntaxKeptAgrees(fold, p[2..], esc, t[1..]);
        }
      } else {
        assert fp[1..] == Folded(fold, p[1..]);
        forall k | 0 <= k <= |t|
          ensures Matches(fp[1..], fe, ft[k..]) <==> MatchesUpTo(fold, p[1..], esc, t[k..])
        {
          assert ft[k..] == Folded(fold, t[k..]);
          SyntaxKeptAgrees(fold, p[1..], esc, t[k..]);
        }
      }
    }
  }

  ghost predicate KeepsSyntaxOf(fold: char -> char, esc: Option<char>, c: char) {
    && (fold(c) == '%' <==> c == '%')
    && (fold(c) == '_' <==> c == '_')
    && (esc.Some? ==> (fold(c) == fold(esc.value) <==> c == esc.value))
  }

  /** A one-character pattern against the empty text and against a one-character text. */
  lemma {:induction false} OneCharacter(fold: char -> char, esc: Option<char>, c: char, d: char)
    ensures LikeEvalResult(fold, [c], esc, []) <==> fold(c) == '%'
    ensures MatchesUpTo(fold, [c], esc, []) <==> c == '%'
    ensures LikeEvalResult(fold, [c], esc, [d]) <==> fold(c) == '%' || fold(c) == '_' || fold(c) == fold(d)
    ensures MatchesUpTo(fold, [c], esc, [d]) <==> c == '%' || c == '_' || fold(c) == fold(d)
  {
    var fe := FoldedEscape(fold, esc);
    var empty: string := [];
    assert Folded(fold, [c]) == [fold(c)] && Folded(fold, [d]) == [fold(d)] && Folded(fold, empty) == [];
    assert [c][1..] == [] && [fold(c)][1..] == [] && [d][1..] == [] && [fold(d)][1..] == [] && empty[0..] == [];
    assert Matches([], fe, empty[0..]) && Matches([], fe, [fold(d)][1..]);
    assert MatchesUpTo(fold, [], esc, empty[0..]) && MatchesUpTo(fold, [], esc, [d][1..]);
  }

  /** Two characters against an escaped `%`, where folding turns the first into an escape character. */
  lemma {:induction false} FalseEscape(fold: char -> char, esc: Option<char>, c: char)
    requires esc.Some? && fold(c) == fold(esc.value) && c != esc.value
    ensures !LikeEvalResult(fold, [c, '%'], esc, [c, c])
    ensures MatchesUpTo(fold, [c, '%'], esc, [c, c])
  {
    var p, t := [c, '%'], [c, c];
    var fp, ft := Folded(fold, p), Folded(fold, t);
    assert fp == [fold(c), fold('%')] && ft == [fold(c), fold(c)];
    assert fp[2..] == [] && ft[1..] == [fold(c)];
    assert Escapes(fp, FoldedEscape(fold, esc)) && !Matches(fp[2..], FoldedEscape(fold, esc), ft[1..]);
    assert p[1..] == ['%'] && t[1..] == [c] && ['%'][1..] == [] && [c][1..] == [];
    assert MatchesUpTo(fold, [], esc, []);
    assert MatchesUpTo(fold, ['%'], esc, [c]);
  }

  /** Where a fold does not keep the syntax, some pattern and text tell the two meanings apart. */
  lemma {:induction false} SyntaxLostDisagrees(fold: char -> char, esc: Option<char>, c: char)
    returns (p: string, t: string)
    requires !KeepsSyntaxOf(fold, esc, c)
    ensures !(LikeEvalResult(fold, p, esc, t) <==> MatchesUpTo(fold, p, esc, t))
  {
    OneCharacter(fold, esc, '%', '%');
    OneCharacter(fold, esc, '_', '%');
    OneCharacter(fold, esc, c, '%');
    if fold('%') != '%' {
      p, t := ['%'], [];
    } else if fold('_') == '%' {
      p, t := ['_'], [];
    } else if fold(c) == '%' && c != '%' {
      p, t := [c], [];
    } else if fold('_') != '_' {
      p, t := ['_'], ['%'];
    } else if fold(c) == '_' && c != '_' {
      p, t := [c], ['%'];
    } else {
      FalseEscape(fold, esc, c);
      p, t := [c, '%'], [c, c];
    }
  }

  /**
   * `like_eval` folds pattern and escape character before looking for syntax. That agrees with folding
   * only the compared characters, for every pattern and text, exactly when the fold keeps the syntax.
   */
  lemma {:induction false} FoldingFirstAgreesIff(fold: char -> char, esc: Option<char>)
    ensures KeepsSyntax(fold, esc)
       <==> forall p: string, t: string :: LikeEvalResult(fold, p, esc, t) <==> MatchesUpTo(fold, p, esc, t)
  {
    if KeepsSyntax(fold, esc) {
      forall p: string, t: string ensures LikeEvalResult(fold, p, esc, t) <==> MatchesUpTo(fold, p, esc, t) {
        SyntaxKeptAgrees(fold, p, esc, t);
      }
    } else {
      var c: char :| !KeepsSyntaxOf(fold, esc, c);
      var p, t := SyntaxLostDisagrees(fold, esc, c);
    }
  }

  function AsciiLower(c: char): char {
    if 'A' <= c <= 'Z' then (c as int + 32) as char else c
  }

  /** A letter as escape character is where the two part: `'ab' LIKE 'a%' ESCAPE 'A'`. */
  lemma {:induction false} LetterEscapeCounterexample()
    ensures MatchesUpTo(AsciiLower, "a%", Some('A'), "ab")
    ensures !LikeEvalResult(AsciiLower, "a%", Some('A'), "ab")
  {
    assert "a%"[1..] == "%" && "ab"[1..] == "b" && "%"[1..] == [] && "b"[1..] == [];
    assert MatchesUpTo(AsciiLower, [], Some('A'), []);
    assert MatchesUpTo(AsciiLower, "%", Some('A'), "b");
    var fp, ft := Folded(AsciiLower, "a%"), Folded(AsciiLower, "ab");
    assert fp == "a%" && ft == "ab";
  }
}
