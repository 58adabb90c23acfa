/** What expansion and the modifiers of a variable give, for texts with nothing special in their parts. */
module ExpansionLaws {
  import opened Words
  import opened WordLaws
  import opened Expansion

  // ------------------------------------------------------------- plain texts

  /** None of the characters from j to k has a meaning when a text of this kind is read up to the stops. */
  predicate Simple(s: string, j: nat, k: nat, stop1: char, stop2: char, kind: Kind) {
    j <= k <= |s| && forall i :: j <= i < k ==>
      && s[i] != stop1 && s[i] != stop2 && s[i] != '$'
      && (kind.Name? || s[i] != '\\') && (kind.Rhs? ==> s[i] != '&')
  }

  /** Such a text is read as it is. */
  lemma {:induction false} ReadSimple(e: Env, s: string, j: nat, k: nat, stop1: char, stop2: char, kind: Kind)
    requires Simple(s, j, k, stop1, stop2, kind) && k < |s| && (s[k] == stop1 || s[k] == stop2)
    ensures Body(e, s, j, stop1, stop2, kind, true) == End(true, k, s[j..k])
    decreases k - j
  {
    if j < k {
      var rest := End(true, k, s[j + 1..k]);
      assert [s[j]] + s[j + 1..k] == s[j..k];
      assert Body(e, s, j + 1, stop1, stop2, kind, true) == rest by { ReadSimple(e, s, j + 1, k, stop1, stop2, kind); }
      assert Peek(s, j, stop1, stop2, kind) == Take(s[j], j + 1);
      assert Body(e, s, j, stop1, stop2, kind, true) == Before([s[j]], false, rest);
    } else {
      assert s[j..k] == "";
    }
  }

  // ------------------------------------------------------- texts with values

  /** From a place without a dollar sign on, a text expands to itself. */
  lemma {:induction false} PlainTail(e: Env, s: string, i: nat)
    requires i <= |s| && forall k :: i <= k < |s| ==> s[k] != '$'
    ensures VarSubst(e, s, i) == End(true, |s|, s[i..])
    decreases |s| - i
  {
    if i < |s| {
      PlainTail(e, s, i + 1);
      assert [s[i]] + s[i + 1..] == s[i..];
    } else {
      assert s[i..] == "";
    }
  }

  lemma BeforeTwice(a: string, b: string, r: Outcome)
    ensures Before(a, false, Before(b, false, r)) == Before(a + b, false, r) && Before("", false, r) == r
  {
    if r.Done? {
      assert a + (b + r.out) == (a + b) + r.out && "" + r.out == r.out;
    }
  }

  lemma {:induction false} PlainPart(e: Env, s: string, i: nat, j: nat)
    requires i <= j <= |s| && forall k :: i <= k < j ==> s[k] != '$'
    ensures VarSubst(e, s, i) == Before(s[i..j], false, VarSubst(e, s, j))
    decreases j - i
  {
    BeforeTwice("", "", VarSubst(e, s, j));
    if i < j {
      PlainPart(e, s, i + 1, j);
      BeforeTwice([s[i]], s[i + 1..j], VarSubst(e, s, j));
      assert [s[i]] + s[i + 1..j] == s[i..j];
    }
  }

  /** Two dollar signs stand for one. */
  lemma TwoDollars(e: Env, s: string, i: nat)
    requires i + 1 < |s| && s[i] == '$' && s[i + 1] == '$'
    ensures VarSubst(e, s, i) == Before("$", false, VarSubst(e, s, i + 2))
  {
  }

  /** A specification is replaced by what it expands to.  One that is wrong, or of a variable that there is
    * not, is left out or left as it is. */
  lemma SpecificationReplaced(e: Env, s: string, i: nat)
    requires i + 1 < |s| && s[i] == '$' && s[i + 1] != '$' && VarParse(e, s, i, true).Done?
    ensures var v := VarParse(e, s, i, true);
      VarSubst(e, s, i) ==
        if v.ok || e.skip then Before(v.out, v.bare, VarSubst(e, s, v.next))
        else Before("$", v.bare, VarSubst(e, s, i + 1))
  {
  }

  /** $x: a name of one character. */
  lemma ShortName(e: Env, s: string, i: nat)
    requires i + 1 < |s| && s[i] == '$' && s[i + 1] !in "$({" && Settled(e, [s[i + 1]])
    ensures VarParse(e, s, i, true) == End([s[i + 1]] in e.vars, i + 2, Given(e, [s[i + 1]]))
  {
    var name := [s[i + 1]];
    assert At(s, i + 1) == s[i + 1] && Min(i + 2, |s|) == i + 2;
    assert VarParse(e, s, i, true) == Value(e, s, name, i + 2);
    if name in e.vars { assert ValueOf(e, name) == End(true, 0, e.vars[name]); }
  }

  /** ${name} and $(name), from i on up to the closing bracket at k. */
  lemma LongName(e: Env, s: string, i: nat, k: nat)
    requires i + 2 <= k < |s| && s[i] == '$' && Settled(e, s[i + 2..k])
    requires (s[i + 1] == '{' && s[k] == '}' && Simple(s, i + 2, k, '}', ':', Name))
          || (s[i + 1] == '(' && s[k] == ')' && Simple(s, i + 2, k, ')', ':', Name))
    ensures VarParse(e, s, i, true) == End(s[i + 2..k] in e.vars, k + 1, Given(e, s[i + 2..k]))
  {
    var name := s[i + 2..k];
    ReadSimple(e, s, i + 2, k, s[k], ':', Name);
    assert At(s, i + 1) == s[i + 1];
    var v := Value(e, s, name, k + 1);
    if name in e.vars { assert ValueOf(e, name) == End(true, 0, e.vars[name]); }
    assert v == End(name in e.vars, k + 1, Given(e, name));
    BeforeTwice("", "", v);
  }

  // ------------------------------------------------------ a name in braces

  /** s is a specification in braces: a name, and a modifier that starts at t. */
  predicate Specifies(s: string, name: string, t: nat) {
    && 3 <= t < |s| && s[0] == '$' && s[1] == '{' && s[t - 1] == ':' && s[2..t - 1] == name && s[|s| - 1] == '}'
    && Simple(s, 2, t - 1, '}', ':', Name)
  }

  /** The value that a modifier works on. */
  function Given(e: Env, name: string): string {
    if name in e.vars then e.vars[name] else ""
  }

  /** The value has nothing to be expanded in it, and the variable is not being expanded. */
  predicate Settled(e: Env, name: string) {
    name in e.vars ==> name !in e.inUse && '$' !in e.vars[name]
  }

  /** The only modifier of a specification makes its text. */
  lemma OnlyModifier(e: Env, s: string, name: string, t: nat, out: string)
    requires Specifies(s, name, t) && Settled(e, name)
    requires Modifier(e, s, t, '}', name, name !in e.vars, Given(e, name), true) == End(true, |s| - 1, out)
    ensures VarParse(e, s, 0, true) == End(true, |s|, out)
  {
    ReadSimple(e, s, 2, t - 1, '}', ':', Name);
    assert VarParse(e, s, 0, true) == Bounded(e, s, 2, '}', true);
    var m := Modifiers(e, s, t, '}', name, name !in e.vars, Given(e, name), true);
    assert m == End(true, |s|, out);
    assert ValueOf(e, name) == End(true, 0, Given(e, name));
    assert Before("", false, m) == End(true, |s|, out) by { assert "" + out == out; }
  }

  // --------------------------------------------------------------- lhs=rhs

  /** words' are the words with lhs at their ends replaced by rhs; words that do not end so stay. */
  ghost predicate EndsReplaced(lhs: string, rhs: string, words: seq<string>, words': seq<string>) {
    |words'| == |words| && forall k :: 0 <= k < |words| ==> EndReplaced(lhs, rhs, words[k], words'[k])
  }

  ghost predicate EndReplaced(lhs: string, rhs: string, w: string, w': string) {
    (exists u :: w == u + lhs && w' == u + rhs) || (w' == w && forall u :: w != u + lhs)
  }

  lemma AtTheEnd(lhs: string, rhs: string, w: string)
    ensures EndReplaced(lhs, rhs, w, Rewrite(Pattern(lhs, rhs, true, false, true), w))
  {
    var p := Pattern(lhs, rhs, true, false, true);
    if u :| w == u + lhs {
      AtEnd(p, u);
    } else {
      OnlyAtEnd(p, w);
    }
  }

  lemma EveryEnd(lhs: string, rhs: string, words: seq<string>)
    ensures EndsReplaced(lhs, rhs, words, RewriteAll(Pattern(lhs, rhs, true, false, true), words, false))
  {
    var p := Pattern(lhs, rhs, true, false, true);
    if words != [] { EveryWord(p, words, 0); }
    forall k | 0 <= k < |words| ensures EndReplaced(lhs, rhs, words[k], RewriteAll(p, words, false)[k]) {
      EveryWord(p, words, k);
      AtTheEnd(lhs, rhs, words[k]);
    }
  }

  lemma {:induction false} FindIs(s: string, t: nat, k: nat, c: char)
    requires t <= k < |s| && s[k] == c && forall i :: t <= i < k ==> s[i] != c
    ensures Find(s, t, c) == k
    decreases k - t
  {
    if t < k { FindIs(s, t + 1, k, c); }
  }

  /** No other modifier begins with this character. */
  predicate NoModifier(c: char) {
    c !in "@SDUMN!LPTHER"
  }

  lemma SysVIs(s: string, t: nat, q: nat, val: string)
    requires t <= q < |s| - 1 && s[q] == '=' && s[|s| - 1] == '}'
    requires (forall i :: t <= i < q ==> s[i] != '=') && (forall i :: t <= i < |s| - 1 ==> s[i] != '}')
    ensures var p := Pattern(s[t..q], s[q + 1..|s| - 1], true, false, true);
      SysV(s, t, '}', val, true) == End(true, |s| - 1, Spaced(NonEmpty(RewriteAll(p, Fields(val, 0), false))))
  {
    FindIs(s, t, |s| - 1, '}');
    FindIs(s, t, q, '=');
  }

  lemma NoOther(e: Env, s: string, name: string, t: nat, val: string)
    requires t < |s| && NoModifier(s[t])
    ensures forall junk :: Modifier(e, s, t, '}', name, junk, val, true) == SysV(s, t, '}', val, true)
  {
  }

  /** ${name:lhs=rhs}, with the sign at q. */
  lemma SuffixesReplaced(e: Env, s: string, name: string, t: nat, q: nat) returns (words: seq<string>)
    requires Specifies(s, name, t) && Settled(e, name)
    requires t <= q < |s| - 1 && s[q] == '=' && NoModifier(s[t])
    requires (forall i :: t <= i < q ==> s[i] != '=') && (forall i :: t <= i < |s| - 1 ==> s[i] != '}')
    ensures EndsReplaced(s[t..q], s[q + 1..|s| - 1], Fields(Given(e, name), 0), words)
    ensures VarParse(e, s, 0, true) == End(true, |s|, Spaced(NonEmpty(words)))
  {
    var words0, lhs, rhs := Fields(Given(e, name), 0), s[t..q], s[q + 1..|s| - 1];
    words := RewriteAll(Pattern(lhs, rhs, true, false, true), words0, false);
    EveryEnd(lhs, rhs, words0);
    SuffixesRewritten(e, s, name, t, q, Pattern(lhs, rhs, true, false, true));
  }

  lemma SuffixesRewritten(e: Env, s: string, name: string, t: nat, q: nat, p: Pattern)
    requires Specifies(s, name, t) && Settled(e, name)
    requires t <= q < |s| - 1 && s[q] == '=' && NoModifier(s[t]) && p == Pattern(s[t..q], s[q + 1..|s| - 1], true, false, true)
    requires (forall i :: t <= i < q ==> s[i] != '=') && (forall i :: t <= i < |s| - 1 ==> s[i] != '}')
    ensures VarParse(e, s, 0, true) == End(true, |s|, Spaced(NonEmpty(RewriteAll(p, Fields(Given(e, name), 0), false))))
  {
    var val := Given(e, name);
    var out := Spaced(NonEmpty(RewriteAll(p, Fields(val, 0), false)));
    NoOther(e, s, name, t, val);
    assert SysV(s, t, '}', val, true) == End(true, |s| - 1, out) by { SysVIs(s, t, q, val); }
    OnlyModifier(e, s, name, t, out);
  }

  predicate Without(s: string, chars: string) {
    forall i :: 0 <= i < |s| ==> s[i] !in chars
  }

  lemma SuffixText(name: string, lhs: string, rhs: string)
    ensures var s, t := "${" + name + ":" + lhs + "=" + rhs + "}", |name| + 3;
      && |s| == t + |lhs| + 1 + |rhs| + 1 && s[0] == '$' && s[1] == '{' && s[2..t - 1] == name && s[t - 1] == ':'
      && s[t..t + |lhs|] == lhs && s[t + |lhs|] == '=' && s[t + |lhs| + 1..|s| - 1] == rhs && s[|s| - 1] == '}'
  {
  }

  lemma SuffixTextIs(s: string, name: string, t: nat, q: nat, lhs: string, rhs: string)
    requires Without(name, "}:$") && Without(lhs, "=}") && Without(rhs, "}") && t == |name| + 3 && q == t + |lhs|
    requires |s| == q + 1 + |rhs| + 1 && s[2..t - 1] == name && s[t..q] == lhs && s[q] == '=' && s[q + 1..|s| - 1] == rhs
    ensures Simple(s, 2, t - 1, '}', ':', Name)
    ensures (forall i :: t <= i < q ==> s[i] != '=') && (forall i :: t <= i < |s| - 1 ==> s[i] != '}')
  {
    forall i | 2 <= i < t - 1 ensures s[i] !in "}:$" { assert s[i] == name[i - 2]; }
    forall i | t <= i < q ensures s[i] !in "=}" { assert s[i] == lhs[i - t]; }
    forall i | q < i < |s| - 1 ensures s[i] != '}' { assert s[i] == rhs[i - q - 1]; }
  }

  /** So ${x:lhs=rhs} makes a word u + lhs of the value u + rhs, and leaves a word that does not end in lhs. */
  lemma SuffixRule(e: Env, name: string, lhs: string, rhs: string) returns (words: seq<string>)
    requires Without(name, "}:$") && Without(lhs, "=}") && Without(rhs, "}") && (lhs == "" || NoModifier(lhs[0]))
    requires name in e.vars && name !in e.inUse && '$' !in e.vars[name]
    ensures EndsReplaced(lhs, rhs, Fields(e.vars[name], 0), words)
    ensures var s := "${" + name + ":" + lhs + "=" + rhs + "}";
      VarParse(e, s, 0, true) == End(true, |s|, Spaced(NonEmpty(words)))
  {
    var s, t := "${" + name + ":" + lhs + "=" + rhs + "}", |name| + 3;
    var q := t + |lhs|;
    SuffixText(name, lhs, rhs);
    assert s[t] == if lhs == "" then '=' else lhs[0];
    words := SuffixAt(e, s, name, t, q, lhs, rhs);
  }

  lemma SuffixAt(e: Env, s: string, name: string, t: nat, q: nat, lhs: string, rhs: string) returns (words: seq<string>)
    requires Without(name, "}:$") && Without(lhs, "=}") && Without(rhs, "}")
    requires t == |name| + 3 && q == t + |lhs| && |s| == q + 1 + |rhs| + 1 && NoModifier(s[t])
    requires s[0] == '$' && s[1] == '{' && s[2..t - 1] == name && s[t - 1] == ':'
    requires s[t..q] == lhs && s[q] == '=' && s[q + 1..|s| - 1] == rhs && s[|s| - 1] == '}'
    requires name in e.vars && name !in e.inUse && '$' !in e.vars[name]
    ensures EndsReplaced(lhs, rhs, Fields(e.vars[name], 0), words)
    ensures VarParse(e, s, 0, true) == End(true, |s|, Spaced(NonEmpty(words)))
  {
    SuffixTextIs(s, name, t, q, lhs, rhs);
    words := SuffixesReplaced(e, s, name, t, q);
  }

  // ------------------------------------------------------- the word chosen

  /** M keeps the words that match and N those that do not: word by word, in their order. */
  lemma {:induction false} ChosenOfBoth(w: World, keep: bool, pattern: string, a: seq<string>, b: seq<string>)
    ensures Chosen(w, keep, pattern, a + b) == Chosen(w, keep, pattern, a) + Chosen(w, keep, pattern, b)
  {
    if a == [] {
      assert a + b == b;
    } else {
      var first := if w.matches(a[0], pattern) == keep then [a[0]] else [];
      var x, y := Chosen(w, keep, pattern, a[1..]), Chosen(w, keep, pattern, b);
      assert Chosen(w, keep, pattern, a[1..] + b) == x + y by { ChosenOfBoth(w, keep, pattern, a[1..], b); }
      assert (a + b)[1..] == a[1..] + b && (a + b)[0] == a[0];
      assert Chosen(w, keep, pattern, a + b) == first + (x + y);
      assert Chosen(w, keep, pattern, a) == first + x;
      assert first + (x + y) == (first + x) + y;
    }
  }

  lemma ChosenOfOne(w: World, pattern: string, word: string)
    ensures Chosen(w, true, pattern, [word]) == if w.matches(word, pattern) then [word] else []
    ensures Chosen(w, false, pattern, [word]) == if w.matches(word, pattern) then [] else [word]
    ensures forall keep :: Chosen(w, keep, pattern, []) == []
  {
    assert [word][1..] == [];
  }

  lemma {:induction false} ChosenAreWords(w: World, keep: bool, pattern: string, words: seq<string>)
    requires forall k :: 0 <= k < |words| ==> IsWord(words[k])
    ensures forall k :: 0 <= k < |Chosen(w, keep, pattern, words)| ==> IsWord(Chosen(w, keep, pattern, words)[k])
  {
    if words != [] { ChosenAreWords(w, keep, pattern, words[1..]); }
  }

  lemma FieldsAre(val: string)
    ensures forall k :: 0 <= k < |Fields(val, 0)| ==> IsWord(Fields(val, 0)[k])
  {
    forall k | 0 <= k < |Fields(val, 0)| ensures IsWord(Fields(val, 0)[k]) {
      FieldsAreWords(val, 0, k);
    }
  }

  /** ${name:Mpattern} and ${name:Npattern}: the words of the result are the chosen words of the value. */
  lemma WordsChosen(e: Env, s: string, name: string, t: nat) returns (out: string)
    requires Specifies(s, name, t) && Settled(e, name) && (s[t] == 'M' || s[t] == 'N')
    requires t + 1 <= |s| - 1 && Simple(s, t + 1, |s| - 1, '}', ':', Plain)
    ensures VarParse(e, s, 0, true) == End(true, |s|, out)
    ensures Fields(out, 0) == Chosen(e.w, s[t] == 'M', s[t + 1..|s| - 1], Fields(Given(e, name), 0))
  {
    var n, words := |s| - 1, Fields(Given(e, name), 0);
    var pattern := s[t + 1..n];
    ReadSimple(e, s, t + 1, n, '}', ':', Plain);
    out := Filtered(e.w, s[t] == 'M', pattern, Given(e, name));
    OnlyModifier(e, s, name, t, out);
    FieldsAre(Given(e, name));
    ChosenAreWords(e.w, s[t] == 'M', pattern, words);
    JoinedAndSplit(Chosen(e.w, s[t] == 'M', pattern, words));
  }

  // ------------------------------------------------------ defined or not

  /** Without a buffer too, a simple text ends where its stop is. */
  lemma {:induction false} SkipSimple(e: Env, s: string, j: nat, k: nat, stop1: char, stop2: char, kind: Kind)
    requires Simple(s, j, k, stop1, stop2, kind) && k < |s| && (s[k] == stop1 || s[k] == stop2)
    ensures Body(e, s, j, stop1, stop2, kind, false) == End(true, k, "")
    decreases k - j
  {
    if j < k {
      SkipSimple(e, s, j + 1, k, stop1, stop2, kind);
      assert Peek(s, j, stop1, stop2, kind) == Take(s[j], j + 1);
    }
  }

  /** ${name:Dtext} is the text if there is such a variable, and ${name:Utext} if there is none; otherwise
    * the value stays. */
  lemma IfDefined(e: Env, s: string, name: string, t: nat)
    requires Specifies(s, name, t) && Settled(e, name) && (s[t] == 'D' || s[t] == 'U')
    requires t + 1 <= |s| - 1 && Simple(s, t + 1, |s| - 1, '}', ':', Plain)
    ensures var out := if (s[t] == 'D') == (name in e.vars) then s[t + 1..|s| - 1] else Given(e, name);
      VarParse(e, s, 0, true) == End(true, |s|, out)
  {
    var n, text, val := |s| - 1, s[t + 1..|s| - 1], Given(e, name);
    var out := if (s[t] == 'D') == (name in e.vars) then text else val;
    assert Modifier(e, s, t, '}', name, name !in e.vars, val, true) == End(true, n, out) by {
      ReadSimple(e, s, t + 1, n, '}', ':', Plain);
      SkipSimple(e, s, t + 1, n, '}', ':', Plain);
    }
    OnlyModifier(e, s, name, t, out);
  }

  // --------------------------------------------------- name, path and parts

  /** ${name:L} is the name, ${name:P} the path of the node of that name, and ${name:T}, H, E and R are
    * those parts of the value. */
  lemma ByLetter(e: Env, s: string, name: string, t: nat)
    requires Specifies(s, name, t) && Settled(e, name) && t + 2 == |s|
    ensures s[t] == 'L' ==> VarParse(e, s, 0, true) == End(true, |s|, name)
    ensures s[t] == 'P' ==> VarParse(e, s, 0, true) == End(true, |s|, e.w.path(name))
    ensures s[t] in "THER" ==> VarParse(e, s, 0, true) == End(true, |s|, e.w.part(s[t], Given(e, name)))
  {
    if s[t] == 'L' {
      OnlyModifier(e, s, name, t, name);
    } else if s[t] == 'P' {
      OnlyModifier(e, s, name, t, e.w.path(name));
    } else if s[t] in "THER" {
      OnlyModifier(e, s, name, t, e.w.part(s[t], Given(e, name)));
    }
  }

  /** ${name:!command!} is what the command says. */
  lemma ByCommand(e: Env, s: string, name: string, t: nat)
    requires Specifies(s, name, t) && Settled(e, name) && s[t] == '!' && t + 1 < |s| - 1 && s[|s| - 2] == '!'
    requires Simple(s, t + 1, |s| - 2, '!', '!', Plain)
    ensures VarParse(e, s, 0, true) == End(true, |s|, e.w.shell(s[t + 1..|s| - 2]))
  {
    ReadSimple(e, s, t + 1, |s| - 2, '!', '!', Plain);
    OnlyModifier(e, s, name, t, e.w.shell(s[t + 1..|s| - 2]));
  }

  // ---------------------------------------------------------- substitution

  /** A left side that ends in a dollar sign, which is not part of it. */
  lemma {:induction false} ReadToDollar(e: Env, s: string, j: nat, k: nat, stop: char)
    requires Simple(s, j, k, stop, stop, Lhs) && k + 1 < |s| && s[k] == '$' && s[k + 1] == stop && stop != '$'
    ensures Body(e, s, j, stop, stop, Lhs, true) == Done(true, k + 1, s[j..k], false, true)
    decreases k - j
  {
    if j < k {
      ReadToDollar(e, s, j + 1, k, stop);
      assert Peek(s, j, stop, stop, Lhs) == Take(s[j], j + 1);
      assert [s[j]] + s[j + 1..k] == s[j..k];
    } else {
      assert s[j..k] == "";
    }
  }

  /** A text with every '&' in it replaced. */
  function Replaced(r: string, lhs: string): string {
    if r == "" then "" else (if r[0] == '&' then lhs else [r[0]]) + Replaced(r[1..], lhs)
  }

  /** A right side: '&' stands for the left side. */
  lemma {:induction false} ReadRight(e: Env, s: string, j: nat, k: nat, stop: char, lhs: string)
    requires Simple(s, j, k, stop, stop, Plain) && k < |s| && s[k] == stop && stop != '&'
    ensures Body(e, s, j, stop, stop, Rhs(lhs), true) == End(true, k, Replaced(s[j..k], lhs))
    decreases k - j
  {
    if j < k {
      ReadRight(e, s, j + 1, k, stop, lhs);
      assert s[j..k][1..] == s[j + 1..k];
      if s[j] == '&' {
        assert Peek(s, j, stop, stop, Rhs(lhs)) == Ampersand;
      } else {
        assert Peek(s, j, stop, stop, Rhs(lhs)) == Take(s[j], j + 1);
      }
    } else {
      assert s[j..k] == "";
    }
  }

  /** A backslash takes the next character as it is, whatever it is. */
  lemma BackslashTakes(e: Env, s: string, j: nat, stop1: char, stop2: char, kind: Kind)
    requires j + 1 < |s| && s[j] == '\\' && stop1 != '\\' && stop2 != '\\' && !kind.Name?
    ensures Body(e, s, j, stop1, stop2, kind, true) == Before([s[j + 1]], false, Body(e, s, j + 2, stop1, stop2, kind, true))
  {
    assert Peek(s, j, stop1, stop2, kind) == Take(s[j + 1], j + 2);
  }

  /** Where the parts of a modifier :S are: the left side from a to b, the right one from r to q; `start`
    * and `end` say whether it has '^' and '$', and `global` whether it has 'g'. */
  datatype Shape = Shape(a: nat, b: nat, r: nat, q: nat, start: bool, end: bool, global: bool)

  predicate Shaped(s: string, t: nat, f: Shape) {
    && t + 2 < |s| && s[t] == 'S'
    && var d := s[t + 1];
       && d != '$' && d != '\\' && d != '&'
       && f.a == (if f.start then t + 3 else t + 2) && f.a <= f.b && f.b + 1 < |s| && (f.start <==> s[t + 2] == '^')
       && Simple(s, f.a, f.b, d, d, Lhs)
       && (if f.end then s[f.b] == '$' && s[f.b + 1] == d && f.r == f.b + 2 else s[f.b] == d && f.r == f.b + 1)
       && f.r <= f.q < |s| && Simple(s, f.r, f.q, d, d, Plain) && s[f.q] == d
       && (if f.global then f.q + 3 == |s| && s[f.q + 1] == 'g' else f.q + 2 == |s|)
  }

  /** ${name:S/lhs/rhs/}, with '^', '$' and 'g' or without: every word is rewritten, or without 'g' the
    * first that matches; module WordLaws says what that gives. */
  lemma WordsRewritten(e: Env, s: string, name: string, t: nat, f: Shape)
    requires Specifies(s, name, t) && Settled(e, name) && Shaped(s, t, f)
    requires f.a < f.b || !f.global || f.start || f.end
    ensures var lhs := s[f.a..f.b];
      var p := Pattern(lhs, Replaced(s[f.r..f.q], lhs), f.global, f.start, f.end);
      VarParse(e, s, 0, true) == End(true, |s|, Spaced(NonEmpty(RewriteAll(p, Fields(Given(e, name), 0), false))))
  {
    var lhs, val := s[f.a..f.b], Given(e, name);
    var p := Pattern(lhs, Replaced(s[f.r..f.q], lhs), f.global, f.start, f.end);
    SubstituteIs(e, s, t, f, val);
    OnlyModifier(e, s, name, t, Spaced(NonEmpty(RewriteAll(p, Fields(val, 0), false))));
  }

  lemma SubstituteIs(e: Env, s: string, t: nat, f: Shape, val: string)
    requires Shaped(s, t, f) && s[|s| - 1] == '}' && (f.a < f.b || !f.global || f.start || f.end)
    ensures var lhs := s[f.a..f.b];
      var p := Pattern(lhs, Replaced(s[f.r..f.q], lhs), f.global, f.start, f.end);
      Substitute(e, s, t, '}', val, true) == End(true, |s| - 1, Spaced(NonEmpty(RewriteAll(p, Fields(val, 0), false))))
  {
    var (l, r) := Sides(e, s, t, true);
    SidesRead(e, s, t, f);
    assert Substitute(e, s, t, '}', val, true) == Expansion.Replaced(s, f.q, '}', l, r, f.start, val, true) by {
      SubstituteBySides(e, s, t, '}', val, true);
    }
    RewrittenAt(s, f, l, r, val);
  }

  lemma RewrittenAt(s: string, f: Shape, l: Outcome, r: Outcome, val: string)
    requires f.q < |s| && s[|s| - 1] == '}' && l.Done? && r.Done? && !l.bare && !r.bare && l.atEnd == f.end
    requires if f.global then f.q + 3 == |s| && s[f.q + 1] == 'g' else f.q + 2 == |s|
    requires l.out != "" || !f.global || f.start || f.end
    ensures var p := Pattern(l.out, r.out, f.global, f.start, f.end);
      Expansion.Replaced(s, f.q, '}', l, r, f.start, val, true)
        == End(true, |s| - 1, Spaced(NonEmpty(RewriteAll(p, Fields(val, 0), false))))
  {
    var p := Pattern(l.out, r.out, f.global, f.start, f.end);
    var out := Spaced(NonEmpty(RewriteAll(p, Fields(val, 0), false)));
    assert Expansion.Substituted(p, val) == End(true, 0, out) by { NothingToRewrite(p, val); }
    assert Closed(s, |s| - 1, '}', "", false) == End(true, |s| - 1, "");
    assert At(s, f.q + 1) == 'g' <==> f.global;
  }

  lemma SidesRead(e: Env, s: string, t: nat, f: Shape)
    requires Shaped(s, t, f)
    ensures var lhs := s[f.a..f.b];
      Sides(e, s, t, true)
        == (Done(true, if f.end then f.b + 1 else f.b, lhs, false, f.end), End(true, f.q, Replaced(s[f.r..f.q], lhs)))
  {
    var d := s[t + 1];
    if f.end { ReadToDollar(e, s, f.a, f.b, d); } else { ReadSimple(e, s, f.a, f.b, d, d, Lhs); }
    ReadRight(e, s, f.r, f.q, d, s[f.a..f.b]);
  }

  lemma NothingToRewrite(p: Pattern, val: string)
    requires Ends(p)
    ensures Fields(val, 0) == [] ==> Spaced(NonEmpty(RewriteAll(p, Fields(val, 0), false))) == ""
  {
  }

  // ------------------------------------------------------------- a loop

  /** What stands before the special part of a text. */
  lemma {:induction false} BodyPart(e: Env, s: string, j: nat, q: nat, stop: char)
    requires Simple(s, j, q, stop, stop, Plain) && q < |s|
    ensures Body(e, s, j, stop, stop, Plain, true) == Before(s[j..q], false, Body(e, s, q, stop, stop, Plain, true))
    decreases q - j
  {
    BeforeTwice("", "", Body(e, s, q, stop, stop, Plain, true));
    if j < q {
      var rest := Body(e, s, q, stop, stop, Plain, true);
      assert [s[j]] + s[j + 1..q] == s[j..q];
      assert Peek(s, j, stop, stop, Plain) == Take(s[j], j + 1);
      assert Body(e, s, j + 1, stop, stop, Plain, true) == Before(s[j + 1..q], false, rest) by { BodyPart(e, s, j + 1, q, stop); }
      BeforeTwice([s[j]], s[j + 1..q], rest);
    }
  }

  /** A text with one $v in it, at q, when v has the value w. */
  lemma OnePiece(e: Env, s: string, j: nat, q: nat, k: nat, w: string)
    requires q + 2 <= k < |s| && Simple(s, j, q, '@', '@', Plain) && Simple(s, q + 2, k, '@', '@', Plain) && s[k] == '@'
    requires s[q] == '$' && s[q + 1] !in "$({@" && [s[q + 1]] in e.vars && e.vars[[s[q + 1]]] == w && Settled(e, [s[q + 1]])
    ensures Body(e, s, j, '@', '@', Plain, true) == End(true, k, s[j..q] + w + s[q + 2..k])
  {
    BodyPart(e, s, j, q, '@');
    ReadSimple(e, s, q + 2, k, '@', '@', Plain);
    ShortName(e, s, q);
    assert Peek(s, q, '@', '@', Plain) == Nested;
    assert Body(e, s, q, '@', '@', Plain, true) == Before(w, false, End(true, k, s[q + 2..k]));
    BeforeTwice(s[j..q], w, End(true, k, s[q + 2..k]));
    assert (s[j..q] + w) + s[q + 2..k] == s[j..q] + w + s[q + 2..k];
  }

  /** The words with a text before and one behind. */
  function Around(before: string, words: seq<string>, behind: string): (r: seq<string>)
    ensures |r| == |words| && forall k :: 0 <= k < |words| ==> r[k] == before + words[k] + behind
  {
    seq(|words|, k requires 0 <= k < |words| => before + words[k] + behind)
  }

  lemma {:induction false} AllPieces(e: Env, s: string, j: nat, q: nat, k: nat, words: seq<string>)
    requires j <= q && q + 2 <= k < |s| && Simple(s, j, q, '@', '@', Plain) && Simple(s, q + 2, k, '@', '@', Plain) && s[k] == '@'
    requires s[q] == '$' && s[q + 1] !in "$({@" && words != [] && forall i :: 0 <= i < |words| ==> '$' !in words[i]
    ensures Pieces(e, s, j, [s[q + 1]], words) == End(true, k, Spaced(Around(s[j..q], words, s[q + 2..k])))
    decreases |words|
  {
    var v, rest := [s[q + 1]], words[1..];
    var e1 := e.(vars := e.vars[v := words[0]], inUse := e.inUse - {v});
    OnePiece(e1, s, j, q, k, words[0]);
    var pieces := Around(s[j..q], words, s[q + 2..k]);
    if |words| > 1 {
      AllPieces(e, s, j, q, k, rest);
      assert pieces[1..] == Around(s[j..q], rest, s[q + 2..k]);
      assert At(s, j) != '@';
    }
  }

  /** ${name:@v@text@} with one $v in the text: the text for each word, with a space between two. */
  lemma TextForEachWord(e: Env, s: string, name: string, t: nat, q: nat)
    requires Specifies(s, name, t) && Settled(e, name) && name in e.vars && t + 3 <= q && q + 2 <= |s| - 2
    requires s[t] == '@' && s[t + 2] == '@' && s[|s| - 2] == '@' && s[t + 1] != '@'
    requires Simple(s, t + 3, q, '@', '@', Plain) && Simple(s, q + 2, |s| - 2, '@', '@', Plain)
    requires s[q] == '$' && s[q + 1] == s[t + 1] && s[t + 1] !in "$({"
    ensures var out := Spaced(Around(s[t + 3..q], Fields(Given(e, name), 0), s[q + 2..|s| - 2]));
      Fields(Given(e, name), 0) != [] ==> VarParse(e, s, 0, true) == End(true, |s|, out)
  {
    var words, k := Fields(Given(e, name), 0), |s| - 2;
    if words != [] {
      FindIs(s, t + 1, t + 2, '@');
      assert s[t + 1..t + 2] == [s[q + 1]];
      NoDollars(Given(e, name), 0);
      var out := Spaced(Around(s[t + 3..q], words, s[q + 2..k]));
      assert Pieces(e, s, t + 3, s[t + 1..t + 2], words) == End(true, k, out) by { AllPieces(e, s, t + 3, q, k, words); }
      assert Loop(e, s, t, '}', Given(e, name), true) == End(true, k + 1, out);
      OnlyModifier(e, s, name, t, out);
    }
  }

  /** What is not in a text is not in its words. */
  lemma {:induction false} NoDollars(val: string, i: nat)
    requires i <= |val| && '$' !in val
    ensures forall k :: 0 <= k < |Fields(val, i)| ==> '$' !in Fields(val, i)[k]
    decreases |val| - i
  {
    var b := SkipBlanks(val, i);
    if b < |val| { NoDollars(val, WordEnd(val, b)); }
  }
}
