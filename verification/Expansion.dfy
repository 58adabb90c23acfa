/** Variable expansion: Var_Subst, VarParse and VarApplyModifiers.
  *
  * The parser runs in two modes: with a buffer it expands, without one it only looks for the end of
  * the specification (`want` is false).  A text is read up to its end, which stands for the null byte.
  * Every step into the value of a variable takes one from a budget; running out of it is an outcome
  * of its own, which is later shown not to occur.
  */
module Expansion {
  import opened Words

  /** What the expansion depends on besides the variables: the paths of nodes, the output of shell
    * commands, the words a pattern matches, and the modifiers H, T, E and R. */
  datatype World = World(
    path: string -> string,
    shell: string -> string,
    matches: (string, string) -> bool,
    part: (char, string) -> string)

  /** The variables, those among them whose value is being expanded, and the budget; and whether a
    * specification that is not valid is skipped. */
  datatype Env = Env(w: World, vars: map<string, string>, inUse: set<string>, budget: nat, skip: bool)

  /** A specification: was it valid, where does it end, what does it expand to; does a replacement of :S
    * in it end in a bare dollar sign; and, for the left side of :S, does that end in one?  Or: a variable
    * is reached while its value is being expanded; a substitution does not end; the budget is spent. */
  datatype Outcome =
    | Done(ok: bool, next: nat, out: string, bare: bool, atEnd: bool)
    | Recursive
    | Endless
    | Spent

  function At(s: string, i: nat): char { if i < |s| then s[i] else '\0' }

  function Min(a: nat, b: nat): nat { if a < b then a else b }

  function Put(want: bool, c: char): string { if want then [c] else "" }

  function End(ok: bool, next: nat, out: string): Outcome { Done(ok, next, out, false, false) }

  /** Put some text before what an outcome expands to. */
  function Before(out: string, bare: bool, r: Outcome): Outcome {
    match r
    case Done(ok, next, rest, b, atEnd) => Done(ok, next, out + rest, bare || b, atEnd)
    case _ => r
  }

  /** How the text between two delimiters is read: a name, an ordinary text, and the two sides of :S,
    * the right one with the left one for '&'. */
  datatype Kind = Name | Plain | Lhs | Rhs(lhs: string)

  /** What is at a place of such a text: its end, one way or the other; a '&'; a character, perhaps
    * behind a backslash; or a specification. */
  datatype Step = Unclosed(next: nat) | Stop | DollarAtEnd | BareDollar | Ampersand | Take(c: char, next: nat) | Nested

  function Peek(s: string, j: nat, stop1: char, stop2: char, kind: Kind): (step: Step)
    requires j <= |s|
    ensures step.Take? ==> j < step.next <= |s|
    ensures step.Unclosed? ==> j <= step.next <= |s|
    ensures !step.Unclosed? ==> j < |s|
    ensures step.DollarAtEnd? || step.BareDollar? ==> j + 1 < |s|
    ensures step.Nested? ==> s[j] == '$'
  {
    if j == |s| then Unclosed(j)
    else if s[j] == stop1 || s[j] == stop2 then Stop
    else if kind.Rhs? && s[j] == '&' then Ampersand
    else if s[j] != '$' then
      var k := if !kind.Name? && s[j] == '\\' then j + 1 else j;
      if k == |s| then Unclosed(k) else Take(s[k], k + 1)
    else if (kind.Lhs? || kind.Rhs?) && j + 1 < |s| && s[j + 1] == stop1 then
      if kind.Lhs? then DollarAtEnd else BareDollar
    else Nested
  }

  /** The text from j up to one of two characters; `ok` says that one of them was found.  A bare dollar
    * sign at the end is skipped with a buffer, and not skipped without one. */
  function Body(e: Env, s: string, j: nat, stop1: char, stop2: char, kind: Kind, want: bool): (r: Outcome)
    requires j <= |s|
    ensures r.Done? ==> j <= r.next <= |s| && (r.ok ==> r.next < |s|)
    decreases e.budget, |s| - j, 1, 0
  {
    match Peek(s, j, stop1, stop2, kind)
    case Unclosed(k) => End(false, k, "")
    case Stop => End(true, j, "")
    case DollarAtEnd => Done(true, j + 1, "", false, true)
    case BareDollar => if want then Done(true, j + 1, "$", true, false) else Done(true, j, "", true, false)
    case Ampersand =>
      Before(if want && kind.Rhs? then kind.lhs else "", false, Body(e, s, j + 1, stop1, stop2, kind, want))
    case Take(c, k) => Before(Put(want, c), false, Body(e, s, k, stop1, stop2, kind, want))
    case Nested =>
      var v := VarParse(e, s, j, want);
      if v.Done? then Before(v.out, v.bare, Body(e, s, v.next, stop1, stop2, kind, want)) else v
  }

  /** VarParse, for a dollar sign at i. */
  function VarParse(e: Env, s: string, i: nat, want: bool): (r: Outcome)
    requires i < |s|
    ensures r.Done? ==> i < r.next <= |s|
    decreases e.budget, |s| - i, 0, 0
  {
    var c := At(s, i + 1);
    if c == '$' then End(true, i + 2, Put(want, '$'))
    else if c != '(' && c != '{' then
      if want then Value(e, s, [c], Min(i + 2, |s|)) else End(true, Min(i + 2, |s|), "")
    else Bounded(e, s, i + 2, if c == '(' then ')' else '}', want)
  }

  /** A specification in parentheses or braces: the name starts at j. */
  function Bounded(e: Env, s: string, j: nat, endc: char, want: bool): (r: Outcome)
    requires j <= |s|
    ensures r.Done? ==> j <= r.next <= |s|
    decreases e.budget, |s| - j, 5, 0
  {
    var name := Body(e, s, j, endc, ':', Name, want);
    if !name.Done? then name
    else if !name.ok then name.(out := "")
    else if s[name.next] == endc then
      if want then Before("", name.bare, Value(e, s, name.out, name.next + 1))
      else name.(next := name.next + 1)
    else if want then
      var v := ValueOf(e, name.out);
      if v.Done? then
        Before("", name.bare, Modifiers(e, s, name.next + 1, endc, name.out, name.out !in e.vars, v.out, true))
      else v
    else Before("", name.bare, Modifiers(e, s, name.next + 1, endc, "", true, "", false))
  }

  /** The value of a variable that is used without modifiers; if there is none, that is a failure. */
  function Value(e: Env, s: string, name: string, next: nat): (r: Outcome)
    requires next <= |s|
    ensures r.Done? ==> r.next == next && !r.bare
    decreases e.budget, |s| - next, 2, 0
  {
    if name !in e.vars then End(false, next, "")
    else
      var v := ValueOf(e, name);
      if v.Done? then End(true, next, v.out) else v
  }

  /** The expanded value of a variable: while it is being expanded, the variable is in use. */
  function ValueOf(e: Env, name: string): (r: Outcome)
    decreases e.budget, 0, 0, 0
  {
    if name !in e.vars then End(true, 0, "")
    else if name in e.inUse then Recursive
    else if '$' !in e.vars[name] then End(true, 0, e.vars[name])
    else if e.budget == 0 then Spent
    else VarSubst(e.(inUse := e.inUse + {name}, budget := e.budget - 1), e.vars[name], 0)
  }

  /** Var_Subst, from i on; where a specification is not valid, it is skipped or left as it is. */
  function VarSubst(e: Env, s: string, i: nat): (r: Outcome)
    requires i <= |s|
    decreases e.budget, |s| - i, 2, 0
  {
    if i == |s| then End(true, i, "")
    else if s[i] != '$' then Before([s[i]], false, VarSubst(e, s, i + 1))
    else if At(s, i + 1) == '$' then Before("$", false, VarSubst(e, s, i + 2))
    else
      var v := VarParse(e, s, i, true);
      if !v.Done? then v
      else if v.ok || e.skip then Before(v.out, v.bare, VarSubst(e, s, v.next))
      else Before("$", v.bare, VarSubst(e, s, i + 1))
  }

  /** The modifiers from t on, one after the other, up to the end of the specification. */
  function Modifiers(e: Env, s: string, t: nat, endc: char, name: string, junk: bool, val: string, want: bool): (r: Outcome)
    requires t <= |s|
    ensures r.Done? ==> t <= r.next <= |s|
    decreases e.budget, |s| - t, 4, 0
  {
    var m := Modifier(e, s, t, endc, name, junk, val, want);
    if !m.Done? then m
    else if !m.ok then m.(out := "")
    else if s[m.next] == endc then m.(next := m.next + 1)
    else Before("", m.bare, Modifiers(e, s, m.next + 1, endc, name, junk, m.out, want))
  }

  /** After a modifier comes the next one, or the end of the specification. */
  function Closed(s: string, next: nat, endc: char, out: string, bare: bool): (r: Outcome)
    requires next <= |s|
    ensures r.Done? && r.next == next && (r.ok ==> next < |s|)
  {
    Done(next < |s| && (s[next] == ':' || s[next] == endc), next, out, bare, false)
  }

  /** VarApplyModifiers, for the modifier at t: `out` is the new value. */
  function Modifier(e: Env, s: string, t: nat, endc: char, name: string, junk: bool, val: string, want: bool): (r: Outcome)
    requires t <= |s|
    ensures r.Done? ==> t <= r.next <= |s| && (r.ok ==> r.next < |s|)
    decreases e.budget, |s| - t, 3, 0
  {
    var c := At(s, t);
    if c == '@' then Loop(e, s, t, endc, val, want)
    else if c == 'S' then Substitute(e, s, t, endc, val, want)
    else if c == 'D' || c == 'U' || c == 'M' || c == 'N' || c == '!' then WithText(e, s, t, endc, junk, val, want)
    else Simple(e, s, t, endc, name, val, want)
  }

  /** The modifiers D, U, M, N and !, which have a text. */
  function WithText(e: Env, s: string, t: nat, endc: char, junk: bool, val: string, want: bool): (r: Outcome)
    requires t < |s|
    ensures r.Done? ==> t <= r.next <= |s| && (r.ok ==> r.next < |s|)
    decreases e.budget, |s| - t, 2, 0
  {
    var c := s[t];
    var wantIt := want && (c == 'D' ==> !junk) && (c == 'U' ==> junk);
    if c == '!' then
      var b := Body(e, s, t + 1, '!', '!', Plain, want);
      if b.Done? && b.ok then Closed(s, b.next + 1, endc, if want then e.w.shell(b.out) else "", b.bare) else b
    else
      var b := Body(e, s, t + 1, endc, ':', Plain, wantIt);
      if !b.Done? || !want then b
      else if !wantIt then b.(out := val)
      else if c == 'M' || c == 'N' then b.(out := Filtered(e.w, c == 'M', b.out, val))
      else b
  }

  /** The modifiers without a text, and lhs=rhs. */
  function Simple(e: Env, s: string, t: nat, endc: char, name: string, val: string, want: bool): (r: Outcome)
    requires t <= |s|
    ensures r.Done? && t <= r.next <= |s| && (r.ok ==> r.next < |s|)
  {
    var c := At(s, t);
    if c == 'L' then Closed(s, t + 1, endc, if want then name else "", false)
    else if c == 'P' then Closed(s, t + 1, endc, if want then e.w.path(name) else "", false)
    else if c == 'T' || c == 'H' || c == 'E' || c == 'R' then
      Closed(s, t + 1, endc, if want then e.w.part(c, val) else "", false)
    else SysV(s, t, endc, val, want)
  }

  /** The words of a value that match a pattern, or those that do not. */
  function Filtered(w: World, keep: bool, pattern: string, val: string): string {
    Spaced(Chosen(w, keep, pattern, Fields(val, 0)))
  }

  function Chosen(w: World, keep: bool, pattern: string, words: seq<string>): seq<string> {
    if words == [] then []
    else (if w.matches(words[0], pattern) == keep then [words[0]] else []) + Chosen(w, keep, pattern, words[1..])
  }

  /** VarModify with VarSubstitute; without a word there is nothing that might not end. */
  function Substituted(p: Pattern, val: string): (r: Outcome) {
    if Fields(val, 0) == [] then End(true, 0, "")
    else if Ends(p) then End(true, 0, Spaced(NonEmpty(RewriteAll(p, Fields(val, 0), false))))
    else Endless
  }

  /** The modifier S: the delimiter is the character after it. */
  function Substitute(e: Env, s: string, t: nat, endc: char, val: string, want: bool): (r: Outcome)
    requires t < |s|
    ensures r.Done? ==> t <= r.next <= |s| && (r.ok ==> r.next < |s|)
    decreases e.budget, |s| - t, 2, 0
  {
    var delim, start := At(s, t + 1), At(s, t + 2) == '^';
    if t + 1 == |s| then End(false, t + 1, "")
    else
      var l := Body(e, s, Min(if start then t + 3 else t + 2, |s|), delim, delim, Lhs, want);
      if !l.Done? || !l.ok then l
      else
        var r := Body(e, s, l.next + 1, delim, delim, Rhs(l.out), want);
        if !r.Done? || !r.ok then Before("", l.bare, r)
        else Replaced(s, r.next, endc, l, r, start, val, want)
  }

  /** Behind the second side of :S, whose end is at k, comes perhaps a 'g'. */
  function Replaced(s: string, k: nat, endc: char, l: Outcome, r: Outcome, start: bool, val: string, want: bool): (v: Outcome)
    requires k < |s| && l.Done? && r.Done?
    ensures v.Done? ==> k < v.next <= |s| && (v.ok ==> v.next < |s|)
  {
    var global := At(s, k + 1) == 'g';
    var closed := Closed(s, if global then k + 2 else k + 1, endc, "", l.bare || r.bare);
    if !want || !closed.ok then closed
    else
      var v := Substituted(Pattern(l.out, r.out, global, start, l.atEnd), val);
      if v.Done? then closed.(out := v.out) else v
  }

  /** The first '=' and the end of a substitution in the style of System V. */
  function Find(s: string, t: nat, c: char): (k: nat)
    requires t <= |s|
    ensures t <= k <= |s| && (k < |s| ==> s[k] == c)
    decreases |s| - t
  {
    if t == |s| || s[t] == c then t else Find(s, t + 1, c)
  }

  /** Any other modifier is lhs=rhs, up to the end of the specification. */
  function SysV(s: string, t: nat, endc: char, val: string, want: bool): (r: Outcome)
    requires t <= |s|
    ensures r.Done? && t <= r.next <= |s| && (r.ok ==> r.next < |s|)
  {
    var end, eq := Find(s, t, endc), Find(s, t, '=');
    if end == |s| || eq >= end then End(false, end, "")
    else if !want then End(true, end, "")
    else
      var words := Fields(val, 0);
      End(true, end, Spaced(NonEmpty(RewriteAll(Pattern(s[t..eq], s[eq + 1..end], true, false, true), words, false))))
  }

  /** The modifier @: a variable takes each word of the value in turn. */
  function Loop(e: Env, s: string, t: nat, endc: char, val: string, want: bool): (r: Outcome)
    requires t < |s|
    ensures r.Done? ==> t <= r.next <= |s| && (r.ok ==> r.next < |s|)
    decreases e.budget, |s| - t, 2, 0
  {
    var at := Find(s, t + 1, '@');
    if at == |s| then End(false, at, "")
    else
      var words := if want then Fields(val, 0) else [];
      var b := Body(e, s, at + 1, '@', '@', Plain, false);
      ClosedAfter(s, if words == [] then b else Pieces(e, s, at + 1, s[t + 1..at], words), endc)
  }

  /** Behind a text that has an end comes the next modifier, or the end of the specification. */
  function ClosedAfter(s: string, b: Outcome, endc: char): (r: Outcome)
    requires b.Done? && b.ok ==> b.next < |s|
    ensures r.Done? ==> b.Done? && b.next <= r.next && (r.ok ==> r.next < |s|) && (b.next <= |s| ==> r.next <= |s|)
    ensures !b.Done? || !b.ok ==> r == b
  {
    if !b.Done? || !b.ok then b else Closed(s, b.next + 1, endc, b.out, b.bare)
  }

  /** The text from j up to the next '@', expanded for each word. */
  function Pieces(e: Env, s: string, j: nat, name: string, words: seq<string>): (r: Outcome)
    requires j <= |s| && words != []
    ensures r.Done? ==> j <= r.next <= |s| && (r.ok ==> r.next < |s|)
    decreases e.budget, |s| - j, 2, |words|
  {
    var first := Body(e.(vars := e.vars[name := words[0]], inUse := e.inUse - {name}), s, j, '@', '@', Plain, true);
    if |words| == 1 || !first.Done? then first
    else
      var rest := Pieces(e, s, j, name, words[1..]);
      if rest.Done? then
        first.(out := first.out + (if At(s, j) == '@' then "" else " ") + rest.out, bare := first.bare || rest.bare)
      else rest
  }

  // ------------------------------------------------------ looking for the end

  /** Without a buffer, the result depends on nothing but the text. */
  lemma {:induction false} BodyOfText(e: Env, e0: Env, s: string, j: nat, stop1: char, stop2: char, kind: Kind)
    requires j <= |s|
    ensures Body(e, s, j, stop1, stop2, kind, false) == Body(e0, s, j, stop1, stop2, kind, false)
    ensures var r := Body(e, s, j, stop1, stop2, kind, false); r.Done? && r.out == ""
    decreases |s| - j, 1
  {
    match Peek(s, j, stop1, stop2, kind)
    case Ampersand => BodyOfText(e, e0, s, j + 1, stop1, stop2, kind);
    case Take(c, k) => BodyOfText(e, e0, s, k, stop1, stop2, kind);
    case Nested =>
      ParseOfText(e, e0, s, j);
      BodyOfText(e, e0, s, VarParse(e, s, j, false).next, stop1, stop2, kind);
    case _ =>
  }

  lemma {:induction false} ParseOfText(e: Env, e0: Env, s: string, i: nat)
    requires i < |s|
    ensures VarParse(e, s, i, false) == VarParse(e0, s, i, false)
    ensures var r := VarParse(e, s, i, false); r.Done? && r.out == ""
    decreases |s| - i, 0
  {
    var c := At(s, i + 1);
    if c == '(' || c == '{' { BoundedOfText(e, e0, s, i + 2, if c == '(' then ')' else '}'); }
  }

  lemma {:induction false} BoundedOfText(e: Env, e0: Env, s: string, j: nat, endc: char)
    requires j <= |s|
    ensures Bounded(e, s, j, endc, false) == Bounded(e0, s, j, endc, false)
    ensures var r := Bounded(e, s, j, endc, false); r.Done? && r.out == ""
    decreases |s| - j, 6
  {
    BodyOfText(e, e0, s, j, endc, ':', Name);
    var name := Body(e, s, j, endc, ':', Name, false);
    if name.ok && s[name.next] != endc { ModifiersOfText(e, e0, s, name.next + 1, endc); }
  }

  lemma {:induction false} ModifiersOfText(e: Env, e0: Env, s: string, t: nat, endc: char)
    requires t <= |s|
    ensures Modifiers(e, s, t, endc, "", true, "", false) == Modifiers(e0, s, t, endc, "", true, "", false)
    ensures var r := Modifiers(e, s, t, endc, "", true, "", false); r.Done? && r.out == ""
    decreases |s| - t, 5
  {
    ModifierOfText(e, e0, s, t, endc);
    var m := Modifier(e, s, t, endc, "", true, "", false);
    if m.ok && s[m.next] != endc {
      assert m.out == "";
      ModifiersOfText(e, e0, s, m.next + 1, endc);
    }
  }

  lemma {:induction false} ModifierOfText(e: Env, e0: Env, s: string, t: nat, endc: char)
    requires t <= |s|
    ensures Modifier(e, s, t, endc, "", true, "", false) == Modifier(e0, s, t, endc, "", true, "", false)
    ensures var m := Modifier(e, s, t, endc, "", true, "", false); m.Done? && (m.ok ==> m.out == "")
    decreases |s| - t, 4
  {
    var c := At(s, t);
    if c == '@' {
      var at := Find(s, t + 1, '@');
      if at < |s| { BodyOfText(e, e0, s, at + 1, '@', '@', Plain); }
    } else if c == 'S' {
      SubstituteOfText(e, e0, s, t, endc);
    } else if c == 'D' || c == 'U' || c == 'M' || c == 'N' || c == '!' {
      WithTextOfText(e, e0, s, t, endc);
    }
  }

  lemma {:induction false} WithTextOfText(e: Env, e0: Env, s: string, t: nat, endc: char)
    requires t < |s|
    ensures WithText(e, s, t, endc, true, "", false) == WithText(e0, s, t, endc, true, "", false)
    ensures var m := WithText(e, s, t, endc, true, "", false); m.Done? && m.out == ""
    decreases |s| - t, 2
  {
    if s[t] == '!' { BodyOfText(e, e0, s, t + 1, '!', '!', Plain); } else { BodyOfText(e, e0, s, t + 1, endc, ':', Plain); }
  }

  lemma {:induction false} SubstituteOfText(e: Env, e0: Env, s: string, t: nat, endc: char)
    requires t < |s|
    ensures Substitute(e, s, t, endc, "", false) == Substitute(e0, s, t, endc, "", false)
    ensures var m := Substitute(e, s, t, endc, "", false); m.Done? && (m.ok ==> m.out == "")
    decreases |s| - t, 3
  {
    if t + 1 < |s| {
      SidesOfText(e, e0, s, t);
      SubstituteBySides(e, s, t, endc, "", false);
      SubstituteBySides(e0, s, t, endc, "", false);
    }
  }

  lemma {:induction false} SidesOfText(e: Env, e0: Env, s: string, t: nat)
    requires t + 1 < |s|
    ensures Sides(e, s, t, false) == Sides(e0, s, t, false)
    ensures var (l, r) := Sides(e, s, t, false); l.Done? && (l.ok ==> r.Done?)
    decreases |s| - t, 2
  {
    var delim := s[t + 1];
    var from := Min(if At(s, t + 2) == '^' then t + 3 else t + 2, |s|);
    BodyOfText(e, e0, s, from, delim, delim, Lhs);
    RightSideOfText(e, e0, s, t, delim, Body(e, s, from, delim, delim, Lhs, false));
  }

  lemma {:induction false} RightSideOfText(e: Env, e0: Env, s: string, t: nat, delim: char, l: Outcome)
    requires l.Done? && (l.ok ==> t < l.next < |s|)
    ensures l.ok ==>
      Body(e, s, l.next + 1, delim, delim, Rhs(l.out), false)
        == Body(e0, s, l.next + 1, delim, delim, Rhs(l.out), false)
    ensures l.ok ==> Body(e, s, l.next + 1, delim, delim, Rhs(l.out), false).Done?
    decreases |s| - t, 1
  {
    if l.ok { BodyOfText(e, e0, s, l.next + 1, delim, delim, Rhs(l.out)); }
  }

  // -------------------------------------------------- both modes agree on it

  /** With a buffer, a specification ends where it ends without one, as long as no replacement of :S in
    * it ends in a bare dollar sign. */
  predicate Agree(r: Outcome, k: Outcome) {
    k.Done? && (!k.bare && r.Done? ==> r.next == k.next && !r.bare)
  }

  /** The same way of reading, but for what '&' stands for. */
  predicate Alike(k: Kind, k0: Kind) {
    k == k0 || (k.Rhs? && k0.Rhs?)
  }

  lemma {:induction false} BodyAgrees(e: Env, s: string, j: nat, stop1: char, stop2: char, kind: Kind, kind0: Kind)
    requires j <= |s| && Alike(kind, kind0)
    ensures var r, k := Body(e, s, j, stop1, stop2, kind, true), Body(e, s, j, stop1, stop2, kind0, false);
      Agree(r, k) && (!k.bare && r.Done? ==> r.ok == k.ok && r.atEnd == k.atEnd)
    decreases |s| - j, 1, 1
  {
    BodyOfText(e, e, s, j, stop1, stop2, kind0);
    match Peek(s, j, stop1, stop2, kind)
    case Ampersand => BodyAgrees(e, s, j + 1, stop1, stop2, kind, kind0);
    case Take(c, k) => BodyAgrees(e, s, k, stop1, stop2, kind, kind0);
    case Nested => NestedAgrees(e, s, j, stop1, stop2, kind, kind0);
    case _ =>
  }

  lemma {:induction false} NestedAgrees(e: Env, s: string, j: nat, stop1: char, stop2: char, kind: Kind, kind0: Kind)
    requires j < |s| && Alike(kind, kind0) && Peek(s, j, stop1, stop2, kind) == Nested
    ensures var r, k := Body(e, s, j, stop1, stop2, kind, true), Body(e, s, j, stop1, stop2, kind0, false);
      Agree(r, k) && (!k.bare && r.Done? ==> r.ok == k.ok && r.atEnd == k.atEnd)
    decreases |s| - j, 1, 0
  {
    ParseAgrees(e, s, j);
    ParseOfText(e, e, s, j);
    var next := VarParse(e, s, j, false).next;
    BodyOfText(e, e, s, next, stop1, stop2, kind0);
    BodyAgrees(e, s, next, stop1, stop2, kind, kind0);
    assert Peek(s, j, stop1, stop2, kind0) == Nested;
  }

  lemma {:induction false} ParseAgrees(e: Env, s: string, i: nat)
    requires i < |s|
    ensures Agree(VarParse(e, s, i, true), VarParse(e, s, i, false))
    decreases |s| - i, 0
  {
    var c := At(s, i + 1);
    if c == '(' || c == '{' { BoundedAgrees(e, s, i + 2, if c == '(' then ')' else '}'); }
  }

  lemma {:induction false} BoundedAgrees(e: Env, s: string, j: nat, endc: char)
    requires j <= |s|
    ensures Agree(Bounded(e, s, j, endc, true), Bounded(e, s, j, endc, false))
    decreases |s| - j, 5
  {
    BodyAgrees(e, s, j, endc, ':', Name, Name);
    BoundedOfText(e, e, s, j, endc);
    var name, name0 := Body(e, s, j, endc, ':', Name, true), Body(e, s, j, endc, ':', Name, false);
    if name.Done? && !name0.bare && name.ok && s[name.next] != endc {
      var v := ValueOf(e, name.out);
      if v.Done? { ModifiersAgree(e, s, name.next + 1, endc, name.out, name.out !in e.vars, v.out); }
    }
  }

  lemma {:induction false} ModifiersAgree(e: Env, s: string, t: nat, endc: char, name: string, junk: bool, val: string)
    requires t <= |s|
    ensures Agree(Modifiers(e, s, t, endc, name, junk, val, true), Modifiers(e, s, t, endc, "", true, "", false))
    decreases |s| - t, 4
  {
    ModifierAgrees(e, s, t, endc, name, junk, val);
    ModifierOfText(e, e, s, t, endc);
    ModifiersOfText(e, e, s, t, endc);
    var m, m0 := Modifier(e, s, t, endc, name, junk, val, true), Modifier(e, s, t, endc, "", true, "", false);
    if m.Done? && !m0.bare && m.ok && s[m.next] != endc {
      ModifiersAgree(e, s, m.next + 1, endc, name, junk, m.out);
    }
  }

  /** The same for one modifier, which also succeeds or fails in both modes. */
  predicate AgreeAll(r: Outcome, k: Outcome) {
    Agree(r, k) && (!k.bare && r.Done? ==> r.ok == k.ok)
  }

  lemma {:induction false} ModifierAgrees(e: Env, s: string, t: nat, endc: char, name: string, junk: bool, val: string)
    requires t <= |s|
    ensures AgreeAll(Modifier(e, s, t, endc, name, junk, val, true), Modifier(e, s, t, endc, "", true, "", false))
    decreases |s| - t, 3
  {
    var c := At(s, t);
    if c == '@' {
      LoopAgrees(e, s, t, endc, val);
    } else if c == 'S' {
      SubstituteAgrees(e, s, t, endc, val);
    } else if c == 'D' || c == 'U' || c == 'M' || c == 'N' || c == '!' {
      WithTextAgrees(e, s, t, endc, junk, val);
    }
  }

  lemma {:induction false} WithTextAgrees(e: Env, s: string, t: nat, endc: char, junk: bool, val: string)
    requires t < |s|
    ensures AgreeAll(WithText(e, s, t, endc, junk, val, true), WithText(e, s, t, endc, true, "", false))
    decreases |s| - t, 2
  {
    if s[t] == '!' {
      BodyOfText(e, e, s, t + 1, '!', '!', Plain);
      BodyAgrees(e, s, t + 1, '!', '!', Plain, Plain);
    } else {
      BodyOfText(e, e, s, t + 1, endc, ':', Plain);
      BodyAgrees(e, s, t + 1, endc, ':', Plain, Plain);
    }
  }

  lemma {:induction false} ReplacedAgrees(s: string, k: nat, endc: char, l: Outcome, r: Outcome, l0: Outcome, r0: Outcome,
      start: bool, val: string)
    requires k < |s| && l.Done? && r.Done? && l0.Done? && r0.Done? && (!l0.bare && !r0.bare ==> !l.bare && !r.bare)
    ensures AgreeAll(Replaced(s, k, endc, l, r, start, val, true), Replaced(s, k, endc, l0, r0, start, "", false))
  {
  }

  /** The two sides of :S, read one after the other; the second one only if the first one has an end. */
  function Sides(e: Env, s: string, t: nat, want: bool): (Outcome, Outcome)
    requires t + 1 < |s|
  {
    var delim := s[t + 1];
    var l := Body(e, s, Min(if At(s, t + 2) == '^' then t + 3 else t + 2, |s|), delim, delim, Lhs, want);
    (l, if l.Done? && l.ok then Body(e, s, l.next + 1, delim, delim, Rhs(l.out), want) else Spent)
  }

  lemma {:induction false} SubstituteBySides(e: Env, s: string, t: nat, endc: char, val: string, want: bool)
    requires t + 1 < |s|
    ensures var (l, r) := Sides(e, s, t, want);
      Substitute(e, s, t, endc, val, want) ==
        if !l.Done? || !l.ok then l
        else if !r.Done? || !r.ok then Before("", l.bare, r)
        else Replaced(s, r.next, endc, l, r, At(s, t + 2) == '^', val, want)
  {
  }

  lemma {:induction false} SidesAgree(e: Env, s: string, t: nat)
    requires t + 1 < |s|
    ensures var (l, r) := Sides(e, s, t, true); var (l0, r0) := Sides(e, s, t, false);
      && AgreeAll(l, l0) && (l0.ok ==> r0.Done?)
      && (!l0.bare && l.Done? && l.ok ==> AgreeAll(r, r0))
    decreases |s| - t, 1
  {
    var delim := s[t + 1];
    var from := Min(if At(s, t + 2) == '^' then t + 3 else t + 2, |s|);
    BodyAgrees(e, s, from, delim, delim, Lhs, Lhs);
    BodyOfText(e, e, s, from, delim, delim, Lhs);
    var (l, _) := Sides(e, s, t, true);
    var (l0, _) := Sides(e, s, t, false);
    RightSidesAgree(e, s, t, delim, l, l0);
  }

  lemma {:induction false} RightSidesAgree(e: Env, s: string, t: nat, delim: char, l: Outcome, l0: Outcome)
    requires l0.Done? && (l0.ok ==> t < l0.next < |s|) && AgreeAll(l, l0)
    ensures l0.ok ==> Body(e, s, l0.next + 1, delim, delim, Rhs(l0.out), false).Done?
    ensures l.Done? && !l0.bare && l.ok ==> l0.ok && l.next == l0.next
    ensures l.Done? && !l0.bare && l.ok ==>
      AgreeAll(Body(e, s, l0.next + 1, delim, delim, Rhs(l.out), true),
               Body(e, s, l0.next + 1, delim, delim, Rhs(l0.out), false))
    decreases |s| - t, 0
  {
    if l0.ok {
      BodyOfText(e, e, s, l0.next + 1, delim, delim, Rhs(l0.out));
      if l.Done? { BodyAgrees(e, s, l0.next + 1, delim, delim, Rhs(l.out), Rhs(l0.out)); }
    }
  }

  lemma {:induction false} SubstituteAgrees(e: Env, s: string, t: nat, endc: char, val: string)
    requires t < |s|
    ensures AgreeAll(Substitute(e, s, t, endc, val, true), Substitute(e, s, t, endc, "", false))
    decreases |s| - t, 2
  {
    if t + 1 < |s| {
      SidesAgree(e, s, t);
      SubstituteBySides(e, s, t, endc, val, true);
      SubstituteBySides(e, s, t, endc, "", false);
      var (l, r) := Sides(e, s, t, true);
      var (l0, r0) := Sides(e, s, t, false);
      if l.Done? && l.ok && !l0.bare && r.Done? && r.ok && !r0.bare {
        ReplacedAgrees(s, r.next, endc, l, r, l0, r0, At(s, t + 2) == '^', val);
      }
    }
  }

  lemma {:induction false} LoopAgrees(e: Env, s: string, t: nat, endc: char, val: string)
    requires t < |s|
    ensures AgreeAll(Loop(e, s, t, endc, val, true), Loop(e, s, t, endc, "", false))
    decreases |s| - t, 2
  {
    var at := Find(s, t + 1, '@');
    if at < |s| {
      BodyOfText(e, e, s, at + 1, '@', '@', Plain);
      var words, b := Fields(val, 0), Body(e, s, at + 1, '@', '@', Plain, false);
      if words == [] {
        ClosedAfterAgrees(s, b, b, endc);
      } else {
        PiecesAgree(e, s, at + 1, s[t + 1..at], words);
        ClosedAfterAgrees(s, Pieces(e, s, at + 1, s[t + 1..at], words), b, endc);
      }
    }
  }

  lemma {:induction false} ClosedAfterAgrees(s: string, b: Outcome, b0: Outcome, endc: char)
    requires (b.Done? && b.ok ==> b.next < |s|) && (b0.Done? && b0.ok ==> b0.next < |s|)
    requires AgreeAll(b, b0)
    ensures AgreeAll(ClosedAfter(s, b, endc), ClosedAfter(s, b0, endc))
  {
  }

  lemma {:induction false} PiecesAgree(e: Env, s: string, j: nat, name: string, words: seq<string>)
    requires j <= |s| && words != []
    ensures AgreeAll(Pieces(e, s, j, name, words), Body(e, s, j, '@', '@', Plain, false))
    decreases |s| - j, 2, |words|
  {
    var e1 := e.(vars := e.vars[name := words[0]], inUse := e.inUse - {name});
    BodyAgrees(e1, s, j, '@', '@', Plain, Plain);
    BodyOfText(e1, e, s, j, '@', '@', Plain);
    if |words| > 1 { PiecesAgree(e, s, j, name, words[1..]); }
  }

  /** Var_Skip finds the end that VarParse with a buffer finds, whatever the variables are. */
  lemma SkipAgreesWithExpand(e: Env, e0: Env, s: string, i: nat)
    requires i < |s|
    ensures var r, k := VarParse(e, s, i, true), VarParse(e0, s, i, false);
      k.Done? && (!k.bare && r.Done? ==> r.next == k.next)
  {
    ParseAgrees(e, s, i);
    ParseOfText(e, e0, s, i);
  }

  const LOST := "${x:S/a/b$/}"

  lemma {:induction false} LostName(e: Env, want: bool)
    ensures Body(e, LOST, 2, '}', ':', Name, want) == End(true, 3, if want then "x" else "")
  {
    assert Body(e, LOST, 3, '}', ':', Name, want) == End(true, 3, "");
    assert Peek(LOST, 2, '}', ':', Name) == Take('x', 3);
  }

  lemma {:induction false} LostSides(e: Env, want: bool)
    ensures Sides(e, LOST, 4, want) == (End(true, 7, if want then "a" else ""),
      if want then Done(true, 10, "b$", true, false) else Done(true, 9, "", true, false))
  {
    assert Body(e, LOST, 7, '/', '/', Lhs, want) == End(true, 7, "");
    assert Peek(LOST, 6, '/', '/', Lhs) == Take('a', 7);
    assert Put(want, 'a') + "" == if want then "a" else "";
    assert Body(e, LOST, 6, '/', '/', Lhs, want) == End(true, 7, if want then "a" else "");
    var kind := Rhs(if want then "a" else "");
    assert Peek(LOST, 9, '/', '/', kind) == BareDollar;
    assert Peek(LOST, 8, '/', '/', kind) == Take('b', 9);
    assert Body(e, LOST, 8, '/', '/', kind, want) == Before(Put(want, 'b'), false, Body(e, LOST, 9, '/', '/', kind, want));
    assert "b" + "$" == "b$" && "" + "" == "";
    assert Body(e, LOST, 9, '/', '/', kind, want) == if want then Done(true, 10, "$", true, false) else Done(true, 9, "", true, false);
    assert At(LOST, 6) == 'a' && LOST[5] == '/';
  }

  /** Where a replacement does end in a bare dollar sign, the two modes may differ: without a buffer the
    * specification is thought to end at the delimiter, and to be wrong. */
  lemma {:induction false} BareDollarLosesTheEnd(e: Env)
    requires "x" in e.vars && "x" !in e.inUse && e.vars["x"] == "c"
    ensures VarParse(e, LOST, 0, false) == Done(false, 10, "", true, false)
    ensures VarParse(e, LOST, 0, true) == Done(true, 12, "c", true, false)
  {
    LostWithout(e);
    LostWith(e);
  }

  lemma {:induction false} LostWithout(e: Env)
    ensures Bounded(e, LOST, 2, '}', false) == Done(false, 10, "", true, false)
  {
    LostName(e, false);
    LostSides(e, false);
    SubstituteBySides(e, LOST, 4, '}', "", false);
    assert Modifiers(e, LOST, 4, '}', "", true, "", false) == Done(false, 10, "", true, false);
  }

  lemma {:induction false} LostWith(e: Env)
    requires "x" in e.vars && "x" !in e.inUse && e.vars["x"] == "c"
    ensures Bounded(e, LOST, 2, '}', true) == Done(true, 12, "c", true, false)
  {
    LostName(e, true);
    LostModified(e);
    assert ValueOf(e, "x") == End(true, 0, "c");
  }

  lemma {:induction false} LostModified(e: Env)
    ensures Modifiers(e, LOST, 4, '}', "x", false, "c", true) == Done(true, 12, "c", true, false)
  {
    LostReplaced(e);
    assert Modifier(e, LOST, 4, '}', "x", false, "c", true) == Substitute(e, LOST, 4, '}', "c", true);
  }

  lemma {:induction false} LostReplaced(e: Env)
    ensures Substitute(e, LOST, 4, '}', "c", true) == Done(true, 11, "c", true, false)
  {
    LostSides(e, true);
    SubstituteBySides(e, LOST, 4, '}', "c", true);
    LostSubstitution();
  }

  lemma {:induction false} LostSubstitution()
    ensures Substituted(Pattern("a", "b$", false, false, false), "c") == End(true, 0, "c")
  {
    var p := Pattern("a", "b$", false, false, false);
    assert SkipBlanks("c", 0) == 0 && WordEnd("c", 0) == 1 && "c"[0..1] == "c";
    assert Fields("c", 1) == [];
    assert Fields("c", 0) == ["c"];
    FirstIsFirst("c", "a", 0);
    assert First("c", "a", 0).None?;
    assert RewriteAll(p, ["c"], false) == ["c"];
    assert NonEmpty(["c"]) == ["c"];
  }

  // -------------------------------------------------------------- termination

  /** No modifier @ in a text. */
  predicate NoLoops(s: string) {
    forall i :: 0 <= i < |s| - 1 && s[i] == ':' ==> s[i + 1] != '@'
  }

  /** No modifier S in a text. */
  predicate NoSubstitutions(s: string) {
    forall i :: 0 <= i < |s| - 1 && s[i] == ':' ==> s[i + 1] != 'S'
  }

  /** Nor in the value of a variable. */
  ghost predicate Quiet(e: Env) {
    forall x :: x in e.vars ==> NoSubstitutions(e.vars[x])
  }

  /** The budget is not spent, and without a modifier S no substitution goes on for ever. */
  predicate Fine(r: Outcome, quiet: bool) {
    !r.Spent? && (quiet ==> !r.Endless?)
  }

  /** The budget is as large as the number of variables that are not in use. */
  ghost predicate Roomy(e: Env) {
    |e.vars.Keys - e.inUse| <= e.budget && forall x :: x in e.vars ==> NoLoops(e.vars[x])
  }

  lemma {:induction false} UseOne(e: Env, name: string)
    requires Roomy(e) && name in e.vars && name !in e.inUse
    ensures e.budget > 0 && Roomy(e.(inUse := e.inUse + {name}, budget := e.budget - 1))
  {
    assert e.vars.Keys - (e.inUse + {name}) == (e.vars.Keys - e.inUse) - {name};
    assert name in e.vars.Keys - e.inUse;
  }

  lemma {:induction false} ValueEnds(e: Env, name: string)
    requires Roomy(e)
    ensures Fine(ValueOf(e, name), Quiet(e))
    decreases e.budget, 0, 0
  {
    if name in e.vars && name !in e.inUse {
      UseOne(e, name);
      SubstEnds(e.(inUse := e.inUse + {name}, budget := e.budget - 1), e.vars[name], 0);
    }
  }

  lemma {:induction false} SubstEnds(e: Env, s: string, i: nat)
    requires Roomy(e) && NoLoops(s) && i <= |s|
    ensures Fine(VarSubst(e, s, i), Quiet(e) && NoSubstitutions(s))
    decreases e.budget, |s| - i, 2
  {
    if i < |s| {
      if s[i] != '$' {
        SubstEnds(e, s, i + 1);
      } else if At(s, i + 1) == '$' {
        SubstEnds(e, s, i + 2);
      } else {
        ParseEnds(e, s, i, true);
        var v := VarParse(e, s, i, true);
        if v.Done? { SubstEnds(e, s, if v.ok || e.skip then v.next else i + 1); }
      }
    }
  }

  lemma {:induction false} BodyEnds(e: Env, s: string, j: nat, stop1: char, stop2: char, kind: Kind, want: bool)
    requires Roomy(e) && NoLoops(s) && j <= |s|
    ensures Fine(Body(e, s, j, stop1, stop2, kind, want), Quiet(e) && NoSubstitutions(s))
    decreases e.budget, |s| - j, 1
  {
    match Peek(s, j, stop1, stop2, kind)
    case Ampersand => BodyEnds(e, s, j + 1, stop1, stop2, kind, want);
    case Take(c, k) => BodyEnds(e, s, k, stop1, stop2, kind, want);
    case Nested =>
      ParseEnds(e, s, j, want);
      var v := VarParse(e, s, j, want);
      if v.Done? { BodyEnds(e, s, v.next, stop1, stop2, kind, want); }
    case _ =>
  }

  lemma {:induction false} ParseEnds(e: Env, s: string, i: nat, want: bool)
    requires Roomy(e) && NoLoops(s) && i < |s|
    ensures Fine(VarParse(e, s, i, want), Quiet(e) && NoSubstitutions(s))
    decreases e.budget, |s| - i, 0
  {
    var c := At(s, i + 1);
    if c == '(' || c == '{' {
      BoundedEnds(e, s, i + 2, if c == '(' then ')' else '}', want);
    } else if want && c != '$' {
      ValueEnds(e, [c]);
    }
  }

  lemma {:induction false} BoundedEnds(e: Env, s: string, j: nat, endc: char, want: bool)
    requires Roomy(e) && NoLoops(s) && j <= |s| && endc != ':'
    ensures Fine(Bounded(e, s, j, endc, want), Quiet(e) && NoSubstitutions(s))
    decreases e.budget, |s| - j, 6
  {
    if want { BoundedEndsWanted(e, s, j, endc); } else { BoundedEndsSkipped(e, s, j, endc); }
  }

  lemma {:induction false} BoundedEndsWanted(e: Env, s: string, j: nat, endc: char)
    requires Roomy(e) && NoLoops(s) && j <= |s| && endc != ':'
    ensures Fine(Bounded(e, s, j, endc, true), Quiet(e) && NoSubstitutions(s))
    decreases e.budget, |s| - j, 5
  {
    BodyEnds(e, s, j, endc, ':', Name, true);
    BodyStops(e, s, j, endc, ':', Name, true);
    var name := Body(e, s, j, endc, ':', Name, true);
    if name.Done? && name.ok { WantedEnds(e, s, j, endc, name.next, name.out); }
  }

  lemma {:induction false} BoundedEndsSkipped(e: Env, s: string, j: nat, endc: char)
    requires Roomy(e) && NoLoops(s) && j <= |s| && endc != ':'
    ensures Fine(Bounded(e, s, j, endc, false), Quiet(e) && NoSubstitutions(s))
    decreases e.budget, |s| - j, 5
  {
    BodyEnds(e, s, j, endc, ':', Name, false);
    BodyStops(e, s, j, endc, ':', Name, false);
    var name := Body(e, s, j, endc, ':', Name, false);
    if name.Done? && name.ok { SkippedEnds(e, s, j, endc, name.next); }
  }

  lemma {:induction false} WantedEnds(e: Env, s: string, j: nat, endc: char, k: nat, name: string)
    requires Roomy(e) && NoLoops(s) && j <= k < |s| && (s[k] == endc || s[k] == ':')
    ensures Fine(Value(e, s, name, k + 1), Quiet(e)) && Fine(ValueOf(e, name), Quiet(e))
    ensures var v := ValueOf(e, name);
      s[k] != endc && v.Done? ==>
        Fine(Modifiers(e, s, k + 1, endc, name, name !in e.vars, v.out, true), Quiet(e) && NoSubstitutions(s))
    decreases e.budget, |s| - j, 4
  {
    ValueEnds(e, name);
    if s[k] != endc { NamedEnds(e, s, k + 1, endc, name); }
  }

  lemma {:induction false} SkippedEnds(e: Env, s: string, j: nat, endc: char, k: nat)
    requires Roomy(e) && NoLoops(s) && j <= k < |s| && (s[k] == endc || s[k] == ':')
    ensures s[k] != endc ==> Fine(Modifiers(e, s, k + 1, endc, "", true, "", false), Quiet(e) && NoSubstitutions(s))
    decreases e.budget, |s| - j, 4
  {
    if s[k] != endc { ModifiersEnd(e, s, k + 1, endc, "", true, "", false); }
  }

  lemma {:induction false} NamedEnds(e: Env, s: string, t: nat, endc: char, name: string)
    requires Roomy(e) && NoLoops(s) && 0 < t <= |s| && s[t - 1] == ':'
    ensures var v := ValueOf(e, name); v.Done? ==> Fine(Modifiers(e, s, t, endc, name, name !in e.vars, v.out, true), Quiet(e) && NoSubstitutions(s))
    decreases e.budget, |s| - t, 5
  {
    var v := ValueOf(e, name);
    if v.Done? { ModifiersEnd(e, s, t, endc, name, name !in e.vars, v.out, true); }
  }

  /** A text ends at one of the two characters it is read up to. */
  lemma {:induction false} BodyStops(e: Env, s: string, j: nat, stop1: char, stop2: char, kind: Kind, want: bool)
    requires j <= |s| && (kind.Name? || kind.Plain?)
    ensures var r := Body(e, s, j, stop1, stop2, kind, want); r.Done? && r.ok ==> s[r.next] == stop1 || s[r.next] == stop2
    decreases e.budget, |s| - j, 1
  {
    match Peek(s, j, stop1, stop2, kind)
    case Take(c, k) => BodyStops(e, s, k, stop1, stop2, kind, want);
    case Nested =>
      var v := VarParse(e, s, j, want);
      if v.Done? { BodyStops(e, s, v.next, stop1, stop2, kind, want); }
    case _ =>
  }

  /** So does a modifier. */
  lemma {:induction false} ModifierStops(e: Env, s: string, t: nat, endc: char, name: string, junk: bool, val: string, want: bool)
    requires t <= |s|
    ensures var m := Modifier(e, s, t, endc, name, junk, val, want);
      m.Done? && m.ok ==> s[m.next] == endc || s[m.next] == ':'
  {
    var c := At(s, t);
    if c == 'S' {
      SubstituteStops(e, s, t, endc, val, want);
    } else if c == '@' {
      LoopStops(e, s, t, endc, val, want);
    } else if c == 'D' || c == 'U' || c == 'M' || c == 'N' || c == '!' {
      BodyStops(e, s, t + 1, endc, ':', Plain, want);
      BodyStops(e, s, t + 1, endc, ':', Plain, false);
    }
  }

  lemma {:induction false} SubstituteStops(e: Env, s: string, t: nat, endc: char, val: string, want: bool)
    requires t < |s|
    ensures var m := Substitute(e, s, t, endc, val, want); m.Done? && m.ok ==> s[m.next] == endc || s[m.next] == ':'
  {
  }

  lemma {:induction false} LoopStops(e: Env, s: string, t: nat, endc: char, val: string, want: bool)
    requires t < |s|
    ensures var m := Loop(e, s, t, endc, val, want); m.Done? && m.ok ==> s[m.next] == endc || s[m.next] == ':'
  {
  }

  lemma {:induction false} ModifiersEnd(e: Env, s: string, t: nat, endc: char, name: string, junk: bool, val: string, want: bool)
    requires Roomy(e) && NoLoops(s) && 0 < t <= |s| && s[t - 1] == ':'
    ensures Fine(Modifiers(e, s, t, endc, name, junk, val, want), Quiet(e) && NoSubstitutions(s))
    decreases e.budget, |s| - t, 4
  {
    ModifierEnds(e, s, t, endc, name, junk, val, want);
    ModifierStops(e, s, t, endc, name, junk, val, want);
    var m := Modifier(e, s, t, endc, name, junk, val, want);
    if m.Done? && m.ok && s[m.next] != endc {
      ModifiersEnd(e, s, m.next + 1, endc, name, junk, m.out, want);
    }
  }

  lemma {:induction false} ModifierEnds(e: Env, s: string, t: nat, endc: char, name: string, junk: bool, val: string, want: bool)
    requires Roomy(e) && NoLoops(s) && 0 < t <= |s| && s[t - 1] == ':'
    ensures Fine(Modifier(e, s, t, endc, name, junk, val, want), Quiet(e) && NoSubstitutions(s))
    decreases e.budget, |s| - t, 3
  {
    if t < |s| {
      assert s[t - 1 + 1] != '@';
      assert NoSubstitutions(s) ==> s[t - 1 + 1] != 'S';
      var c := s[t];
      if c == 'S' {
        SubstituteEnds(e, s, t, endc, val, want);
      } else if c == '!' {
        BodyEnds(e, s, t + 1, '!', '!', Plain, want);
      } else if c == 'D' || c == 'U' || c == 'M' || c == 'N' {
        BodyEnds(e, s, t + 1, endc, ':', Plain, want);
        BodyEnds(e, s, t + 1, endc, ':', Plain, false);
      }
    }
  }

  lemma {:induction false} SubstituteEnds(e: Env, s: string, t: nat, endc: char, val: string, want: bool)
    requires Roomy(e) && NoLoops(s) && t < |s|
    ensures !Substitute(e, s, t, endc, val, want).Spent?
    decreases e.budget, |s| - t, 2
  {
    if t + 1 < |s| {
      var delim := At(s, t + 1);
      var from := Min(if At(s, t + 2) == '^' then t + 3 else t + 2, |s|);
      BodyEnds(e, s, from, delim, delim, Lhs, want);
      RightSideEnds(e, s, t, delim, Body(e, s, from, delim, delim, Lhs, want), want);
    }
  }

  lemma {:induction false} RightSideEnds(e: Env, s: string, t: nat, delim: char, l: Outcome, want: bool)
    requires Roomy(e) && NoLoops(s) && (l.Done? && l.ok ==> t < l.next < |s|)
    ensures l.Done? && l.ok ==> Fine(Body(e, s, l.next + 1, delim, delim, Rhs(l.out), want), Quiet(e) && NoSubstitutions(s))
    decreases e.budget, |s| - t, 1
  {
    if l.Done? && l.ok { BodyEnds(e, s, l.next + 1, delim, delim, Rhs(l.out), want); }
  }

  /** Expansion comes to an end for every table of variables, also one that refers to itself: with a
    * budget of one step into a value for each variable, the budget is never spent.  So the result is a
    * text, or a variable was reached while its value was being expanded, or a substitution does not
    * end; and that does not happen without a modifier S in the text and in the values. */
  lemma ExpansionEnds(w: World, vars: map<string, string>, skip: bool, s: string)
    requires NoLoops(s) && forall x :: x in vars ==> NoLoops(vars[x])
    ensures var r := VarSubst(Env(w, vars, {}, |vars|, skip), s, 0);
      && (r.Done? || r.Recursive? || r.Endless?)
      && (NoSubstitutions(s) && (forall x :: x in vars ==> NoSubstitutions(vars[x])) ==> r.Done? || r.Recursive?)
  {
    var e := Env(w, vars, {}, |vars|, skip);
    assert vars.Keys - {} == vars.Keys;
    SubstEnds(e, s, 0);
  }

  /** Behind the second side of :S the modifier is over: there comes the next one or the end. */
  predicate IsOver(s: string, k: nat, endc: char) {
    var next := if At(s, k + 1) == 'g' then k + 2 else k + 1;
    next < |s| && (s[next] == ':' || s[next] == endc)
  }

  /** A modifier S whose two sides have been expanded goes on for ever exactly if its left side has
    * become empty, it is to be replaced everywhere and not at an end of a word, and there is a word. */
  lemma {:induction false} EndlessExactlyWhen(e: Env, s: string, t: nat, endc: char, val: string)
    requires t + 1 < |s|
    ensures var (l, r) := Sides(e, s, t, true);
      Substitute(e, s, t, endc, val, true).Endless? <==>
        || l.Endless?
        || (l.Done? && l.ok &&
             (|| r.Endless?
              || (r.Done? && r.ok && IsOver(s, r.next, endc)
                  && l.out == "" && At(s, r.next + 1) == 'g' && At(s, t + 2) != '^' && !l.atEnd
                  && Fields(val, 0) != [])))
  {
    SubstituteBySides(e, s, t, endc, val, true);
  }

  const NEVER := "${x:S//y/g}"

  lemma {:induction false} NeverSides(e: Env)
    ensures Sides(e, NEVER, 4, true) == (End(true, 6, ""), End(true, 8, "y"))
  {
    assert Body(e, NEVER, 6, '/', '/', Lhs, true) == End(true, 6, "");
    assert Peek(NEVER, 7, '/', '/', Rhs("")) == Take('y', 8);
    assert Body(e, NEVER, 8, '/', '/', Rhs(""), true) == End(true, 8, "");
    assert "y" + "" == "y";
    assert At(NEVER, 6) == '/' && NEVER[5] == '/';
  }

  lemma {:induction false} NeverName(e: Env)
    ensures Body(e, NEVER, 2, '}', ':', Name, true) == End(true, 3, "x")
  {
    assert Body(e, NEVER, 3, '}', ':', Name, true) == End(true, 3, "");
    assert Peek(NEVER, 2, '}', ':', Name) == Take('x', 3);
    assert "x" + "" == "x";
  }

  lemma {:induction false} NeverModified(e: Env)
    ensures Modifiers(e, NEVER, 4, '}', "x", false, "c", true).Endless?
  {
    NeverSides(e);
    assert SkipBlanks("c", 0) == 0 && WordEnd("c", 0) == 1 && Fields("c", 0) != [];
    EndlessExactlyWhen(e, NEVER, 4, '}', "c");
    assert At(NEVER, 4) == 'S';
  }

  /** With an empty left-hand side to be replaced everywhere, expansion does not come to an end. */
  lemma {:induction false} EmptyLeftSideNeverEnds(e: Env)
    requires "x" in e.vars && "x" !in e.inUse && e.vars["x"] == "c"
    ensures VarParse(e, NEVER, 0, true).Endless?
  {
    NeverName(e);
    NeverModified(e);
    assert ValueOf(e, "x") == End(true, 0, "c");
    assert Bounded(e, NEVER, 2, '}', true).Endless?;
  }

  // ------------------------------------------------ the budget makes no difference

  /** The same result, unless the budget was spent. */
  predicate Stable(r: Outcome, r': Outcome) {
    !r.Spent? ==> r' == r
  }

  lemma {:induction false} ValueStable(e: Env, b: nat, name: string)
    requires b >= e.budget
    ensures Stable(ValueOf(e, name), ValueOf(e.(budget := b), name))
    decreases e.budget, 0, 0
  {
    if name in e.vars && name !in e.inUse && '$' in e.vars[name] && e.budget > 0 {
      var e1 := e.(inUse := e.inUse + {name}, budget := e.budget - 1);
      SubstStable(e1, b - 1, e.vars[name], 0);
      assert e1.(budget := b - 1) == e.(budget := b).(inUse := e.inUse + {name}, budget := b - 1);
    }
  }

  lemma {:induction false} SubstStable(e: Env, b: nat, s: string, i: nat)
    requires b >= e.budget && i <= |s|
    ensures Stable(VarSubst(e, s, i), VarSubst(e.(budget := b), s, i))
    decreases e.budget, |s| - i, 2
  {
    if i < |s| {
      if s[i] != '$' {
        SubstStable(e, b, s, i + 1);
      } else if At(s, i + 1) == '$' {
        SubstStable(e, b, s, i + 2);
      } else {
        ParseStable(e, b, s, i, true);
        var v := VarParse(e, s, i, true);
        if v.Done? { SubstStable(e, b, s, if v.ok || e.skip then v.next else i + 1); }
      }
    }
  }

  lemma {:induction false} BodyStable(e: Env, b: nat, s: string, j: nat, stop1: char, stop2: char, kind: Kind, want: bool)
    requires b >= e.budget && j <= |s|
    ensures Stable(Body(e, s, j, stop1, stop2, kind, want), Body(e.(budget := b), s, j, stop1, stop2, kind, want))
    decreases e.budget, |s| - j, 1
  {
    match Peek(s, j, stop1, stop2, kind)
    case Ampersand => BodyStable(e, b, s, j + 1, stop1, stop2, kind, want);
    case Take(c, k) => BodyStable(e, b, s, k, stop1, stop2, kind, want);
    case Nested =>
      ParseStable(e, b, s, j, want);
      var v := VarParse(e, s, j, want);
      if v.Done? { BodyStable(e, b, s, v.next, stop1, stop2, kind, want); }
    case _ =>
  }

  lemma {:induction false} ParseStable(e: Env, b: nat, s: string, i: nat, want: bool)
    requires b >= e.budget && i < |s|
    ensures Stable(VarParse(e, s, i, want), VarParse(e.(budget := b), s, i, want))
    decreases e.budget, |s| - i, 0
  {
    var c := At(s, i + 1);
    if c == '(' || c == '{' {
      BoundedStable(e, b, s, i + 2, if c == '(' then ')' else '}', want);
    } else if want && c != '$' {
      ValueStable(e, b, [c]);
    }
  }

  lemma {:induction false} BoundedStable(e: Env, b: nat, s: string, j: nat, endc: char, want: bool)
    requires b >= e.budget && j <= |s|
    ensures Stable(Bounded(e, s, j, endc, want), Bounded(e.(budget := b), s, j, endc, want))
    decreases e.budget, |s| - j, 5
  {
    BodyStable(e, b, s, j, endc, ':', Name, want);
    var name := Body(e, s, j, endc, ':', Name, want);
    if name.Done? && name.ok {
      if want { ValueStable(e, b, name.out); }
      if s[name.next] != endc {
        var v := ValueOf(e, name.out);
        if !want {
          ModifiersStable(e, b, s, name.next + 1, endc, "", true, "", false);
        } else if v.Done? {
          ModifiersStable(e, b, s, name.next + 1, endc, name.out, name.out !in e.vars, v.out, true);
        }
      }
    }
  }

  lemma {:induction false} ModifiersStable(e: Env, b: nat, s: string, t: nat, endc: char, name: string, junk: bool, val: string,
      want: bool)
    requires b >= e.budget && t <= |s|
    ensures Stable(Modifiers(e, s, t, endc, name, junk, val, want), Modifiers(e.(budget := b), s, t, endc, name, junk, val, want))
    decreases e.budget, |s| - t, 4
  {
    ModifierStable(e, b, s, t, endc, name, junk, val, want);
    var m := Modifier(e, s, t, endc, name, junk, val, want);
    if m.Done? && m.ok && s[m.next] != endc {
      ModifiersStable(e, b, s, m.next + 1, endc, name, junk, m.out, want);
    }
  }

  lemma {:induction false} ModifierStable(e: Env, b: nat, s: string, t: nat, endc: char, name: string, junk: bool, val: string,
      want: bool)
    requires b >= e.budget && t <= |s|
    ensures Stable(Modifier(e, s, t, endc, name, junk, val, want), Modifier(e.(budget := b), s, t, endc, name, junk, val, want))
    decreases e.budget, |s| - t, 3
  {
    var c := At(s, t);
    if c == '@' {
      LoopStable(e, b, s, t, endc, val, want);
    } else if c == 'S' {
      SubstituteStable(e, b, s, t, endc, val, want);
    } else if c == 'D' || c == 'U' || c == 'M' || c == 'N' || c == '!' {
      WithTextStable(e, b, s, t, endc, junk, val, want);
    }
  }

  lemma {:induction false} WithTextStable(e: Env, b: nat, s: string, t: nat, endc: char, junk: bool, val: string, want: bool)
    requires b >= e.budget && t < |s|
    ensures Stable(WithText(e, s, t, endc, junk, val, want), WithText(e.(budget := b), s, t, endc, junk, val, want))
    decreases e.budget, |s| - t, 2
  {
    if s[t] == '!' {
      BodyStable(e, b, s, t + 1, '!', '!', Plain, want);
    } else {
      BodyStable(e, b, s, t + 1, endc, ':', Plain, want);
      BodyStable(e, b, s, t + 1, endc, ':', Plain, false);
    }
  }

  lemma {:induction false} SubstituteStable(e: Env, b: nat, s: string, t: nat, endc: char, val: string, want: bool)
    requires b >= e.budget && t < |s|
    ensures Stable(Substitute(e, s, t, endc, val, want), Substitute(e.(budget := b), s, t, endc, val, want))
    decreases e.budget, |s| - t, 2
  {
    if t + 1 < |s| {
      var delim := At(s, t + 1);
      var from := Min(if At(s, t + 2) == '^' then t + 3 else t + 2, |s|);
      BodyStable(e, b, s, from, delim, delim, Lhs, want);
      var l := Body(e, s, from, delim, delim, Lhs, want);
      if l.Done? && l.ok { BodyStable(e, b, s, l.next + 1, delim, delim, Rhs(l.out), want); }
    }
  }

  lemma {:induction false} LoopStable(e: Env, b: nat, s: string, t: nat, endc: char, val: string, want: bool)
    requires b >= e.budget && t < |s|
    ensures Stable(Loop(e, s, t, endc, val, want), Loop(e.(budget := b), s, t, endc, val, want))
    decreases e.budget, |s| - t, 2
  {
    var at := Find(s, t + 1, '@');
    if at < |s| {
      var words := if want then Fields(val, 0) else [];
      BodyStable(e, b, s, at + 1, '@', '@', Plain, false);
      if words != [] { PiecesStable(e, b, s, at + 1, s[t + 1..at], words); }
    }
  }

  lemma {:induction false} PiecesStable(e: Env, b: nat, s: string, j: nat, name: string, words: seq<string>)
    requires b >= e.budget && j <= |s| && words != []
    ensures Stable(Pieces(e, s, j, name, words), Pieces(e.(budget := b), s, j, name, words))
    decreases e.budget, |s| - j, 2, |words|
  {
    var e1 := e.(vars := e.vars[name := words[0]], inUse := e.inUse - {name});
    BodyStable(e1, b, s, j, '@', '@', Plain, true);
    assert e1.(budget := b) == e.(budget := b).(vars := e.vars[name := words[0]], inUse := e.inUse - {name});
    if |words| > 1 { PiecesStable(e, b, s, j, name, words[1..]); }
  }

  /** A larger budget gives the same result: the program, which has none, does the same. */
  lemma BudgetMakesNoDifference(w: World, vars: map<string, string>, skip: bool, s: string, b: nat)
    requires NoLoops(s) && (forall x :: x in vars ==> NoLoops(vars[x])) && b >= |vars|
    ensures VarSubst(Env(w, vars, {}, b, skip), s, 0) == VarSubst(Env(w, vars, {}, |vars|, skip), s, 0)
  {
    var e := Env(w, vars, {}, |vars|, skip);
    ExpansionEnds(w, vars, skip, s);
    SubstStable(e, b, s, 0);
    assert e.(budget := b) == Env(w, vars, {}, b, skip);
  }
}
