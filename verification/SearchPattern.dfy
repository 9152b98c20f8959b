/**
 The catalogue search: user text becomes a LIKE pattern by three chained replacements, and the
 pattern must find exactly the literal text, up to case folding.
 */
module SearchPattern {
  /** str.replace of one character. */
  function Replace(s: string, c: char, with: string): string {
    if s == [] then [] else (if s[0] == c then with else [s[0]]) + Replace(s[1..], c, with)
  }

  /** The chain of the query builder. */
  function Chained(q: string): string { Replace(Replace(Replace(q, '!', "!!"), '%', "!%"), '_', "!_") }

  predicate Special(c: char) { c == '!' || c == '%' || c == '_' }

  /** Escaping character by character. */
  function Escaped(q: string): string {
    if q == [] then [] else (if Special(q[0]) then ['!', q[0]] else [q[0]]) + Escaped(q[1..])
  }

  lemma {:induction false} ReplaceAppend(s: string, t: string, c: char, with: string)
    ensures Replace(s + t, c, with) == Replace(s, c, with) + Replace(t, c, with)
  {
    if s == [] {
      assert s + t == t;
    } else {
      assert (s + t)[1..] == s[1..] + t;
      ReplaceAppend(s[1..], t, c, with);
    }
  }

  lemma ReplaceOne(c: char, d: char, with: string)
    ensures Replace([c], d, with) == if c == d then with else [c]
    ensures forall x: char :: Replace([x, c], d, with) == (if x == d then with else [x]) + if c == d then with else [c]
  {
    assert [c][1..] == [];
    assert Replace([], d, with) == [];
    forall x: char ensures Replace([x, c], d, with) == (if x == d then with else [x]) + if c == d then with else [c] {
      assert [x, c][1..] == [c];
    }
  }

  /** The three replacements do not disturb each other, whatever the text holds. */
  lemma {:induction false} ChainedIsEscaped(q: string)
    ensures Chained(q) == Escaped(q)
  {
    if q != [] {
      var c, rest := q[0], q[1..];
      var a := if c == '!' then "!!" else [c];
      var b := if c == '%' then "!%" else a;
      ChainedIsEscaped(rest);
      ReplaceAppend(a, Replace(rest, '!', "!!"), '%', "!%");
      ReplaceAppend(b, Replace(Replace(rest, '!', "!!"), '%', "!%"), '_', "!_");
      ReplaceOne('!', '%', "!%");
      ReplaceOne('!', '_', "!_");
      ReplaceOne('%', '_', "!_");
      ReplaceOne(c, '%', "!%");
      ReplaceOne(c, '_', "!_");
      assert Replace(a, '%', "!%") == b;
      assert Replace(b, '_', "!_") == if Special(c) then ['!', c] else [c];
    }
  }

  /** LIKE with escape character '!': a pattern that ends in the escape character matches nothing. */
  predicate Like(p: string, s: string, fold: char -> char)
    decreases |p|, |s|
  {
    if p == [] then s == []
    else if p[0] == '%' then Like(p[1..], s, fold) || (s != [] && Like(p, s[1..], fold))
    else if p[0] == '_' then s != [] && Like(p[1..], s[1..], fold)
    else if p[0] == '!' then |p| > 1 && s != [] && fold(p[1]) == fold(s[0]) && Like(p[2..], s[1..], fold)
    else s != [] && fold(p[0]) == fold(s[0]) && Like(p[1..], s[1..], fold)
  }

  /** The text q stands at position i, up to folding. */
  ghost predicate At(q: string, s: string, i: nat, fold: char -> char) {
    i + |q| <= |s| && forall k | 0 <= k < |q| :: fold(q[k]) == fold(s[i + k])
  }

  lemma AtNext(q: string, s: string, fold: char -> char)
    requires q != [] && s != []
    ensures At(q, s, 0, fold) <==> fold(q[0]) == fold(s[0]) && At(q[1..], s[1..], 0, fold)
  {
    if fold(q[0]) == fold(s[0]) && At(q[1..], s[1..], 0, fold) {
      forall k | 0 <= k < |q| ensures fold(q[k]) == fold(s[k]) {
        if k > 0 { assert fold(q[1..][k - 1]) == fold(s[1..][0 + (k - 1)]); }
      }
    }
    if At(q, s, 0, fold) {
      assert fold(q[0]) == fold(s[0 + 0]);
      forall k | 0 <= k < |q[1..]| ensures fold(q[1..][k]) == fold(s[1..][0 + k]) {
        assert fold(q[k + 1]) == fold(s[0 + (k + 1)]);
      }
    }
  }

  /** Escaped text matches itself and nothing else. */
  lemma {:induction false} EscapedMatchesLiterally(q: string, rest: string, s: string, fold: char -> char)
    ensures Like(Escaped(q) + rest, s, fold) <==> At(q, s, 0, fold) && Like(rest, s[|q|..], fold)
  {
    if q == [] {
      assert Escaped(q) + rest == rest && s[0..] == s;
    } else {
      var p, tail := Escaped(q) + rest, Escaped(q[1..]) + rest;
      assert p == (if Special(q[0]) then ['!', q[0]] else [q[0]]) + tail;
      if Special(q[0]) { assert p[2..] == tail; } else { assert p[1..] == tail; }
      if s != [] {
        EscapedMatchesLiterally(q[1..], rest, s[1..], fold);
        AtNext(q, s, fold);
        if |q| <= |s| { assert s[1..][|q[1..]|..] == s[|q|..]; }
      }
    }
  }

  /** Unescaped, each underscore stands for one character: it would find other texts. */
  lemma {:induction false} UnderscoresMatchLength(p: string, s: string, fold: char -> char)
    requires forall c | c in p :: c == '_'
    ensures Like(p, s, fold) <==> |s| == |p|
  {
    if p != [] {
      assert p[0] in p && forall c | c in p[1..] :: c in p;
      if s != [] { UnderscoresMatchLength(p[1..], s[1..], fold); }
    }
  }

  lemma {:induction false} PercentSkips(p: string, s: string, fold: char -> char)
    ensures Like("%" + p, s, fold) <==> exists i: nat :: i <= |s| && Like(p, s[i..], fold)
    decreases |s|
  {
    assert ("%" + p)[1..] == p;
    assert s[0..] == s;
    if s != [] {
      PercentSkips(p, s[1..], fold);
      forall i: nat | i <= |s[1..]| ensures s[1..][i..] == s[i + 1..] {}
      if Like("%" + p, s[1..], fold) {
        var i: nat :| i <= |s[1..]| && Like(p, s[1..][i..], fold);
        assert Like(p, s[i + 1..], fold);
      }
      if exists i: nat :: i <= |s| && Like(p, s[i..], fold) {
        var i: nat :| i <= |s| && Like(p, s[i..], fold);
        if i > 0 { assert Like(p, s[1..][i - 1..], fold); }
      }
    }
  }

  lemma {:induction false} PercentMatchesAll(s: string, fold: char -> char)
    ensures Like("%", s, fold)
  {
    assert "%"[1..] == [];
    if s != [] { PercentMatchesAll(s[1..], fold); }
  }

  lemma AtShift(q: string, s: string, i: nat, fold: char -> char)
    requires i <= |s|
    ensures At(q, s[i..], 0, fold) <==> At(q, s, i, fold)
  {
    if At(q, s[i..], 0, fold) {
      forall k | 0 <= k < |q| ensures fold(q[k]) == fold(s[i + k]) { assert fold(q[k]) == fold(s[i..][0 + k]); }
    }
    if At(q, s, i, fold) {
      forall k | 0 <= k < |q| ensures fold(q[k]) == fold(s[i..][0 + k]) { assert fold(q[k]) == fold(s[i + k]); }
    }
  }

  /** A column matches the search pattern if and only if the user's text occurs in it literally. */
  lemma SearchFindsLiteralText(q: string, s: string, fold: char -> char)
    ensures Like("%" + Chained(q) + "%", s, fold) <==> exists i: nat :: At(q, s, i, fold)
  {
    ChainedIsEscaped(q);
    var p := Escaped(q) + "%";
    assert "%" + Chained(q) + "%" == "%" + p;
    PercentSkips(p, s, fold);
    forall i: nat | i <= |s| ensures Like(p, s[i..], fold) <==> At(q, s, i, fold) {
      EscapedMatchesLiterally(q, "%", s[i..], fold);
      AtShift(q, s, i, fold);
      if |q| <= |s[i..]| { PercentMatchesAll(s[i..][|q|..], fold); }
    }
  }
}
