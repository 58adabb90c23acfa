/** What patterns match, as laws on their texts. */
module GlobLaws {
  import opened Options
  import opened Glob

  /** No character of a text has a meaning in a pattern. */
  predicate Ordinary(t: string) {
    forall i :: 0 <= i < |t| ==> t[i] !in "*?[\\"
  }

  lemma {:induction false} OneToken(c: char, p: string)
    requires c !in "*?[\\" && WellFormed(p)
    ensures WellFormed([c] + p) && Tokens([c] + p) == [Literal(c)] + Tokens(p)
  {
    assert ([c] + p)[1..] == p;
  }

  /** A text without such characters in front of a pattern stands for itself. */
  lemma {:induction false} TextFirst(a: string, p: string, s: string)
    requires Ordinary(a) && WellFormed(p)
    ensures WellFormed(a + p)
    ensures Language(Tokens(a + p), s) <==> a <= s && Language(Tokens(p), s[|a|..])
  {
    if a == "" {
      assert a + p == p && s[0..] == s;
    } else {
      var rest := a[1..] + p;
      var s' := if s == "" then s else s[1..];
      assert a + p == [a[0]] + rest;
      assert WellFormed(rest) && (Language(Tokens(rest), s') <==> a[1..] <= s' && Language(Tokens(p), s'[|a[1..]|..])) by {
        TextFirst(a[1..], p, s');
      }
      LiteralFirst(a[0], rest, s);
      BehindText(a, s);
    }
  }

  lemma LiteralFirst(c: char, rest: string, s: string)
    requires c !in "*?[\\" && WellFormed(rest)
    ensures WellFormed([c] + rest)
    ensures Language(Tokens([c] + rest), s) <==> s != "" && s[0] == c && Language(Tokens(rest), s[1..])
  {
    OneToken(c, rest);
    assert ([Literal(c)] + Tokens(rest))[1..] == Tokens(rest);
  }

  lemma BehindText(a: string, s: string)
    requires a != ""
    ensures a <= s <==> s != "" && s[0] == a[0] && a[1..] <= s[1..]
    ensures a <= s ==> s[1..][|a[1..]|..] == s[|a|..]
  {
    assert a == [a[0]] + a[1..];
    if s != "" { assert s == [s[0]] + s[1..]; }
  }

  /** A pattern with nothing special in it matches itself, and nothing else. */
  lemma TextMatchesItself(a: string, s: string)
    requires Ordinary(a)
    ensures Match(a, 0, s, 0) == if s == a then Yes else No
  {
    TextFirst(a, "", s);
    assert a + "" == a && a[0..] == a && s[0..] == s;
    NoStars(a);
    Exact(Tokens(a), s);
    MatchIsFound(a, 0, s, 0);
  }

  lemma {:induction false} NoStars(a: string)
    requires Ordinary(a)
    ensures WellFormed(a) && forall i :: 0 <= i < |Tokens(a)| ==> !Tokens(a)[i].Star?
  {
    if a != "" {
      NoStars(a[1..]);
      OneToken(a[0], a[1..]);
      assert a == [a[0]] + a[1..];
    }
  }

  /** '?' takes any character, and a backslash the next character as it is. */
  lemma AnyFirst(p: string, s: string)
    requires WellFormed(p)
    ensures WellFormed("?" + p)
    ensures Language(Tokens("?" + p), s) <==> s != "" && Language(Tokens(p), s[1..])
  {
    assert ("?" + p)[1..] == p;
  }

  lemma EscapeFirst(c: char, p: string, s: string)
    requires WellFormed(p)
    ensures var q := ['\\', c] + p;
      WellFormed(q) && (Language(Tokens(q), s) <==> s != "" && s[0] == c && Language(Tokens(p), s[1..]))
  {
    var q := ['\\', c] + p;
    assert q[2..] == p && q[0] == '\\' && q[1] == c && |q| > 1;
    assert Tokens(q) == [Literal(c)] + Tokens(p);
    assert ([Literal(c)] + Tokens(p))[1..] == Tokens(p);
  }

  /** A range takes the characters between its ends, whichever of them comes first. */
  lemma RangeFirst(lo: char, hi: char, p: string, s: string)
    requires WellFormed(p) && lo != ']' && hi != ']'
    ensures var q := ['[', lo, '-', hi, ']'] + p;
      && WellFormed(q)
      && (Language(Tokens(q), s) <==>
            s != "" && ((lo <= s[0] && s[0] <= hi) || (hi <= s[0] && s[0] <= lo)) && Language(Tokens(p), s[1..]))
  {
    var q := ['[', lo, '-', hi, ']'] + p;
    assert [lo, '-', hi][3..] == "" && [lo, '-', hi][1] == '-';
    assert Items("") == Some([]);
    assert Items([lo, '-', hi]) == Some([Range(lo, hi)] + []);
    var items := [Range(lo, hi)];
    assert items == [Range(lo, hi)] + [];
    ClassToken(q, [lo, '-', hi], p);
    var ts := Tokens(q);
    assert ts == [Class(items)] + Tokens(p);
    assert ts[1..] == Tokens(p) && !ts[0].Star?;
    if s != "" { assert Listed(items, s[0]) <==> Fits(items[0], s[0]); }
  }

  /** A class of two characters takes both of them, and no other. */
  lemma ClassFirst(x: char, y: char, p: string, s: string)
    requires WellFormed(p) && x != ']' && y != ']' && y != '-'
    ensures var q := ['[', x, y, ']'] + p;
      && WellFormed(q)
      && (Language(Tokens(q), s) <==> s != "" && (s[0] == x || s[0] == y) && Language(Tokens(p), s[1..]))
  {
    var q, items := ['[', x, y, ']'] + p, [One(x), One(y)];
    TwoItems(x, y);
    ClassToken(q, [x, y], p);
    ClassTaken(q, items, p, s);
    if s != "" { assert Listed(items, s[0]) <==> Fits(items[0], s[0]) || Fits(items[1], s[0]); }
  }

  lemma TwoItems(x: char, y: char)
    requires y != '-'
    ensures Items([x, y]) == Some([One(x), One(y)])
  {
    assert [x, y][1..] == [y] && [y][1..] == "";
    assert Items([y]) == Some([One(y)] + []);
    assert [One(x)] + ([One(y)] + []) == [One(x), One(y)];
  }

  lemma ClassTaken(q: string, items: seq<Item>, p: string, s: string)
    requires WellFormed(q) && WellFormed(p) && Tokens(q) == [Class(items)] + Tokens(p)
    ensures Language(Tokens(q), s) <==> s != "" && Listed(items, s[0]) && Language(Tokens(p), s[1..])
  {
    assert Tokens(q)[1..] == Tokens(p);
  }

  lemma {:induction false} CloseAt(q: string, k: nat, n: nat)
    requires k <= n < |q| && q[n] == ']' && forall i :: k <= i < n ==> q[i] != ']'
    ensures Close(q, k) == n
    decreases n - k
  {
  }

  lemma ClassParts(q: string, body: string, p: string)
    requires q == "[" + body + "]" + p && forall i :: 0 <= i < |body| ==> body[i] != ']'
    ensures |q| == |body| + 2 + |p| && q[0] == '[' && Close(q, 1) == |body| + 1
    ensures q[1..|body| + 1] == body && q[|body| + 2..] == p
  {
    var n := |body| + 1;
    assert q[n] == ']';
    forall i | 1 <= i < n ensures q[i] != ']' { assert q[i] == body[i - 1]; }
    CloseAt(q, 1, n);
  }

  lemma ClassToken(q: string, body: string, p: string)
    requires q == "[" + body + "]" + p && WellFormed(p) && Items(body).Some? && forall i :: 0 <= i < |body| ==> body[i] != ']'
    ensures WellFormed(q) && Tokens(q) == [Class(Items(body).value)] + Tokens(p)
  {
    ClassParts(q, body, p);
    TokenIs(q, Class(Items(body).value), |body| + 2, p);
  }

  lemma TokenIs(q: string, token: Token, len: nat, p: string)
    requires q != "" && Next(q) == Step(token, len) && len <= |q| && q[len..] == p && WellFormed(p)
    ensures WellFormed(q) && Tokens(q) == [token] + Tokens(p)
  {
  }

  lemma StarToken(b: string)
    requires WellFormed(b)
    ensures WellFormed("*" + b) && Tokens("*" + b) == [Star] + Tokens(b)
  {
    assert ("*" + b)[1..] == b;
  }

  /** The tokens of a text with nothing special in it. */
  function Literals(a: string): (ts: seq<Token>)
    ensures |ts| == |a| && forall i :: 0 <= i < |ts| ==> ts[i] == Literal(a[i])
  {
    seq(|a|, i requires 0 <= i < |a| => Literal(a[i]))
  }

  lemma {:induction false} TextTokens(a: string, p: string)
    requires Ordinary(a) && WellFormed(p)
    ensures WellFormed(a + p) && Tokens(a + p) == Literals(a) + Tokens(p)
  {
    if a == "" {
      assert a + p == p && Literals(a) + Tokens(p) == Tokens(p);
    } else {
      var rest := a[1..] + p;
      assert WellFormed(rest) && Tokens(rest) == Literals(a[1..]) + Tokens(p) by { TextTokens(a[1..], p); }
      assert a + p == [a[0]] + rest;
      assert WellFormed(a + p) && Tokens(a + p) == [Literal(a[0])] + Tokens(rest) by { OneToken(a[0], rest); }
      LiteralsFirst(a, Tokens(p));
    }
  }

  lemma LiteralsFirst(a: string, ts: seq<Token>)
    requires a != ""
    ensures Literals(a) + ts == [Literal(a[0])] + (Literals(a[1..]) + ts)
  {
  }

  lemma OneStar(a: string, b: string)
    requires Ordinary(a) && Ordinary(b)
    ensures var p := a + ("*" + b); WellFormed(p) && !EndsInTwoStars(Tokens(p))
  {
    NoStars(b);
    StarToken(b);
    TextTokens(a, "*" + b);
    var ts := Literals(a) + ([Star] + Tokens(b));
    assert Tokens(a + ("*" + b)) == ts;
    if |b| > 0 { assert ts[|ts| - 1] == Tokens(b)[|Tokens(b)| - 1]; }
    TextTokens(b, "");
    assert b + "" == b && |Tokens(b)| == |b|;
  }

  /** a*b matches exactly what begins with a and ends with b, without an overlap. */
  lemma StarBetween(a: string, b: string, s: string)
    requires Ordinary(a) && Ordinary(b)
    ensures Match(a + "*" + b, 0, s, 0) == if exists mid :: s == a + mid + b then Yes else No
  {
    var p := a + ("*" + b);
    OneStar(a, b);
    Exact(Tokens(p), s);
    assert a + "*" + b == p && p[0..] == p && s[0..] == s;
    MatchIsFound(p, 0, s, 0);
    StarLanguage(a, b, s);
  }

  lemma StarLanguage(a: string, b: string, s: string)
    requires Ordinary(a) && Ordinary(b)
    ensures var p := a + ("*" + b);
      WellFormed(p) && (Language(Tokens(p), s) <==> exists mid :: s == a + mid + b)
  {
    NoStars(b);
    StarToken(b);
    TextFirst(a, "*" + b, s);
    Between(a, b, s);
    if a <= s { StarThenText(b, s[|a|..]); }
  }

  lemma Between(a: string, b: string, s: string)
    ensures (exists mid :: s == a + mid + b) <==> a <= s && exists mid :: s[|a|..] == mid + b
  {
    if mid :| s == a + mid + b {
      assert s == a + (mid + b);
      assert s[|a|..] == mid + b;
    }
    if a <= s {
      if mid :| s[|a|..] == mid + b { assert s == a + mid + b; }
    }
  }

  lemma StarThenText(b: string, s: string)
    requires Ordinary(b) && WellFormed(b)
    ensures WellFormed("*" + b) && (Language(Tokens("*" + b), s) <==> exists mid :: s == mid + b)
  {
    StarToken(b);
    assert ([Star] + Tokens(b))[1..] == Tokens(b);
    forall k | 0 <= k <= |s| ensures Language(Tokens(b), s[k..]) <==> s[k..] == b {
      TextFirst(b, "", s[k..]);
      assert b + "" == b;
    }
    if k :| 0 <= k <= |s| && Language(Tokens(b), s[k..]) { assert s == s[..k] + b; }
    if mid :| s == mid + b { assert s[|mid|..] == b; }
  }
}
