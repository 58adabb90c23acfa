/** Variable expansion as the program does it: the procedures of var.c, with their loops, and the flags
  * of the variables in use.  Every method is proved against the function of module Expansion that
  * stands for the procedure.
  */
module Expander {
  import opened Options
  import opened Buffers
  import opened Words
  import opened Expansion

  lemma BeforeBefore(a: string, b: string, bare: bool, bare': bool, r: Outcome)
    ensures Before(a, bare, Before(b, bare', r)) == Before(a + b, bare || bare', r)
  {
    if r.Done? { assert a + (b + r.out) == (a + b) + r.out; }
  }

  class Parser {
    const w: World
    const skip: bool
    var vars: map<string, string>
    var inUse: set<string>

    constructor (w: World, skip: bool, vars: map<string, string>)
      ensures this.w == w && this.skip == skip && this.vars == vars && inUse == {}
    {
      this.w, this.skip, this.vars, inUse := w, skip, vars, {};
    }

    /** The program has no budget: b is one that is large enough. */
    ghost function Now(b: nat): Env
      reads this
    {
      Env(w, vars, inUse, b, skip)
    }

    /** Var_Subst. */
    method Subst(str: string, ghost b: nat) returns (r: Outcome)
      requires !VarSubst(Now(b), str, 0).Spent?
      modifies this
      ensures r == VarSubst(old(Now(b)), str, 0)
      ensures r.Done? ==> Now(b) == old(Now(b))
      decreases b, |str|, 3
    {
      var i, out, bare := 0, "", false;
      ghost var e := Now(b);
      while i < |str|
        invariant i <= |str| && Now(b) == e && !VarSubst(e, str, i).Spent?
        invariant Before(out, bare, VarSubst(e, str, i)) == VarSubst(e, str, 0)
      {
        if str[i] != '$' {
          BeforeBefore(out, [str[i]], bare, false, VarSubst(e, str, i + 1));
          out, i := out + [str[i]], i + 1;
        } else if At(str, i + 1) == '$' {
          BeforeBefore(out, "$", bare, false, VarSubst(e, str, i + 2));
          out, i := out + "$", i + 2;
        } else {
          var v := VarParse(str, i, true, b);
          if !v.Done? { return v; }
          if v.ok || skip {
            BeforeBefore(out, v.out, bare, v.bare, VarSubst(e, str, v.next));
            out, bare, i := out + v.out, bare || v.bare, v.next;
          } else {
            BeforeBefore(out, "$", bare, v.bare, VarSubst(e, str, i + 1));
            out, bare, i := out + "$", bare || v.bare, i + 1;
          }
        }
      }
      r := Done(true, i, out, bare, false);
    }

    /** Var_Subst, as it is called from outside: the number of variables is a budget that is large
      * enough, and any larger one gives the same. */
    method Expand(str: string) returns (r: Outcome)
      requires inUse == {} && NoLoops(str) && forall x :: x in vars ==> NoLoops(vars[x])
      modifies this
      ensures r == VarSubst(Env(w, old(vars), {}, |old(vars)|, skip), str, 0) && !r.Spent?
      ensures NoSubstitutions(str) && (forall x :: x in old(vars) ==> NoSubstitutions(old(vars)[x])) ==> r.Done? || r.Recursive?
      ensures r.Done? ==> vars == old(vars) && inUse == {}
    {
      ExpansionEnds(w, vars, skip, str);
      ghost var b: nat := |vars|;
      r := Subst(str, b);
    }

    /** Var_Skip: where the specification at i ends.  No variable is looked at. */
    method Skip(s: string, i: nat) returns (next: nat)
      requires i < |s|
      modifies this
      ensures i < next <= |s| && vars == old(vars) && inUse == old(inUse)
      ensures forall e: Env :: Expansion.VarParse(e, s, i, false).Done? && Expansion.VarParse(e, s, i, false).next == next
    {
      ghost var e0 := Now(0);
      ParseOfText(e0, e0, s, i);
      var r := VarParse(s, i, false, 0);
      next := r.next;
      forall e: Env ensures Expansion.VarParse(e, s, i, false).Done? && Expansion.VarParse(e, s, i, false).next == next {
        ParseOfText(e0, e, s, i);
      }
    }

    /** VarParse, for a dollar sign at i; without `want` it only looks for the end. */
    method VarParse(s: string, i: nat, want: bool, ghost b: nat) returns (r: Outcome)
      requires i < |s| && !Expansion.VarParse(Now(b), s, i, want).Spent?
      modifies this
      ensures r == Expansion.VarParse(old(Now(b)), s, i, want)
      ensures r.Done? ==> Now(b) == old(Now(b))
      decreases b, |s| - i, 0
    {
      var c := At(s, i + 1);
      if c == '$' {
        r := End(true, i + 2, Expansion.Put(want, '$'));
      } else if c == '(' || c == '{' {
        r := Bounded(s, i + 2, if c == '(' then ')' else '}', want, b);
      } else if want {
        r := Value(s, [c], Min(i + 2, |s|), b);
      } else {
        r := End(true, Min(i + 2, |s|), "");
      }
    }

    /** The part of VarParse for a name in parentheses or braces. */
    method Bounded(s: string, j: nat, endc: char, want: bool, ghost b: nat) returns (r: Outcome)
      requires j <= |s| && !Expansion.Bounded(Now(b), s, j, endc, want).Spent?
      modifies this
      ensures r == Expansion.Bounded(old(Now(b)), s, j, endc, want)
      ensures r.Done? ==> Now(b) == old(Now(b))
      decreases b, |s| - j, 6
    {
      var name := ReadText(s, j, endc, ':', Name, want, b);
      if !name.Done? { return name; }
      if !name.ok { return name.(out := ""); }
      if want {
        r := Named(s, endc, name.next, name.out, name.bare, b);
      } else if s[name.next] == endc {
        r := name.(next := name.next + 1);
      } else {
        r := ApplyModifiers(s, name.next + 1, endc, "", true, "", false, b);
        r := Before("", name.bare, r);
      }
    }

    /** The value of a name that ends at k, with the modifiers after it. */
    method Named(s: string, endc: char, k: nat, name: string, bare: bool, ghost b: nat) returns (r: Outcome)
      requires k < |s| && !Rest(Now(b), s, endc, k, name, bare).Spent?
      modifies this
      ensures r == Rest(old(Now(b)), s, endc, k, name, bare)
      ensures r.Done? ==> Now(b) == old(Now(b))
      decreases b, |s| - k, 5
    {
      if s[k] == endc {
        r := Value(s, name, k + 1, b);
        r := Before("", bare, r);
      } else {
        var v := ValueOf(name, b);
        if !v.Done? { return v; }
        r := ApplyModifiers(s, k + 1, endc, name, name !in vars, v.out, true, b);
        r := Before("", bare, r);
      }
    }

    /** A name without modifiers. */
    method Value(s: string, name: string, next: nat, ghost b: nat) returns (r: Outcome)
      requires next <= |s| && !Expansion.Value(Now(b), s, name, next).Spent?
      modifies this
      ensures r == Expansion.Value(old(Now(b)), s, name, next)
      ensures r.Done? ==> Now(b) == old(Now(b))
      decreases b, 0, 1
    {
      if name !in vars { return End(false, next, ""); }
      var v := ValueOf(name, b);
      r := if v.Done? then End(true, next, v.out) else v;
    }

    /** The value of a variable: while it is being expanded, the variable is flagged as in use. */
    method ValueOf(name: string, ghost b: nat) returns (r: Outcome)
      requires !Expansion.ValueOf(Now(b), name).Spent?
      modifies this
      ensures r == Expansion.ValueOf(old(Now(b)), name)
      ensures r.Done? ==> Now(b) == old(Now(b))
      decreases b, 0, 0
    {
      if name !in vars { return End(true, 0, ""); }
      if name in inUse { return Recursive; }
      if '$' !in vars[name] { return End(true, 0, vars[name]); }
      inUse := inUse + {name};
      r := Subst(vars[name], b - 1);
      inUse := inUse - {name};
      assert old(inUse) + {name} - {name} == old(inUse);
    }

    /** The loops over a name, a pattern and the like: a text up to one of two characters. */
    method ReadText(s: string, j0: nat, stop1: char, stop2: char, kind: Kind, want: bool, ghost b: nat)
      returns (r: Outcome)
      requires j0 <= |s| && !Body(Now(b), s, j0, stop1, stop2, kind, want).Spent?
      modifies this
      ensures r == Body(old(Now(b)), s, j0, stop1, stop2, kind, want)
      ensures r.Done? ==> Now(b) == old(Now(b))
      decreases b, |s| - j0, 1
    {
      var j, out, bare := j0, "", false;
      ghost var e := Now(b);
      while true
        invariant j0 <= j <= |s| && Now(b) == e && !Body(e, s, j, stop1, stop2, kind, want).Spent?
        invariant Before(out, bare, Body(e, s, j, stop1, stop2, kind, want)) == Body(e, s, j0, stop1, stop2, kind, want)
        decreases |s| - j
      {
        match Peek(s, j, stop1, stop2, kind) {
          case Unclosed(k) => return Done(false, k, out, bare, false);
          case Stop => return Done(true, j, out, bare, false);
          case DollarAtEnd => return Done(true, j + 1, out, bare, true);
          case BareDollar =>
            return if want then Done(true, j + 1, out + "$", true, false) else Done(true, j, out, true, false);
          case Ampersand =>
            var lhs := if want && kind.Rhs? then kind.lhs else "";
            BeforeBefore(out, lhs, bare, false, Body(e, s, j + 1, stop1, stop2, kind, want));
            out, j := out + lhs, j + 1;
          case Take(c, k) =>
            BeforeBefore(out, Expansion.Put(want, c), bare, false, Body(e, s, k, stop1, stop2, kind, want));
            out, j := out + Expansion.Put(want, c), k;
          case Nested =>
            var v := VarParse(s, j, want, b);
            if !v.Done? { return v; }
            BeforeBefore(out, v.out, bare, v.bare, Body(e, s, v.next, stop1, stop2, kind, want));
            out, bare, j := out + v.out, bare || v.bare, v.next;
        }
      }
    }

    /** The loop of VarParse over the modifiers. */
    method ApplyModifiers(s: string, t0: nat, endc: char, name: string, junk: bool, val0: string, want: bool, ghost b: nat)
      returns (r: Outcome)
      requires t0 <= |s| && !Modifiers(Now(b), s, t0, endc, name, junk, val0, want).Spent?
      modifies this
      ensures r == Modifiers(old(Now(b)), s, t0, endc, name, junk, val0, want)
      ensures r.Done? ==> Now(b) == old(Now(b))
      decreases b, |s| - t0, 4
    {
      var t, val, bare := t0, val0, false;
      ghost var e := Now(b);
      while true
        invariant t0 <= t <= |s| && Now(b) == e && !Modifiers(e, s, t, endc, name, junk, val, want).Spent?
        invariant Before("", bare, Modifiers(e, s, t, endc, name, junk, val, want))
               == Modifiers(e, s, t0, endc, name, junk, val0, want)
        decreases |s| - t
      {
        var m := ApplyModifier(s, t, endc, name, junk, val, want, b);
        if !m.Done? { return m; }
        if !m.ok { return Done(false, m.next, "", bare || m.bare, m.atEnd); }
        if s[m.next] == endc { return Done(true, m.next + 1, m.out, bare || m.bare, m.atEnd); }
        BeforeBefore("", "", bare, m.bare, Modifiers(e, s, m.next + 1, endc, name, junk, m.out, want));
        t, val, bare := m.next + 1, m.out, bare || m.bare;
      }
    }

    /** VarApplyModifiers, for the modifier at t. */
    method ApplyModifier(s: string, t: nat, endc: char, name: string, junk: bool, val: string, want: bool, ghost b: nat)
      returns (r: Outcome)
      requires t <= |s| && !Modifier(Now(b), s, t, endc, name, junk, val, want).Spent?
      modifies this
      ensures r == Modifier(old(Now(b)), s, t, endc, name, junk, val, want)
      ensures r.Done? ==> Now(b) == old(Now(b))
      decreases b, |s| - t, 3
    {
      var c := At(s, t);
      if c == '@' {
        r := Loop(s, t, endc, val, want, b);
      } else if c == 'S' {
        r := Substitute(s, t, endc, val, want, b);
      } else if c == 'D' || c == 'U' || c == 'M' || c == 'N' || c == '!' {
        r := WithText(s, t, endc, junk, val, want, b);
      } else {
        r := Simple(Env(w, vars, inUse, 0, skip), s, t, endc, name, val, want);
      }
    }

    /** The modifiers D, U, M, N and !. */
    method WithText(s: string, t: nat, endc: char, junk: bool, val: string, want: bool, ghost b: nat) returns (r: Outcome)
      requires t < |s| && !Expansion.WithText(Now(b), s, t, endc, junk, val, want).Spent?
      modifies this
      ensures r == Expansion.WithText(old(Now(b)), s, t, endc, junk, val, want)
      ensures r.Done? ==> Now(b) == old(Now(b))
      decreases b, |s| - t, 2
    {
      var c := s[t];
      if c == '!' {
        r := ReadText(s, t + 1, '!', '!', Plain, want, b);
        if r.Done? && r.ok { r := Closed(s, r.next + 1, endc, if want then w.shell(r.out) else "", r.bare); }
      } else {
        var wantIt := want && (c == 'D' ==> !junk) && (c == 'U' ==> junk);
        r := ReadText(s, t + 1, endc, ':', Plain, wantIt, b);
        if r.Done? && want {
          if !wantIt {
            r := r.(out := val);
          } else if c == 'M' || c == 'N' {
            r := r.(out := Filtered(w, c == 'M', r.out, val));
          }
        }
      }
    }

    /** The modifier S. */
    method Substitute(s: string, t: nat, endc: char, val: string, want: bool, ghost b: nat) returns (r: Outcome)
      requires t < |s| && !Expansion.Substitute(Now(b), s, t, endc, val, want).Spent?
      modifies this
      ensures r == Expansion.Substitute(old(Now(b)), s, t, endc, val, want)
      ensures r.Done? ==> Now(b) == old(Now(b))
      decreases b, |s| - t, 2
    {
      if t + 1 == |s| { return End(false, t + 1, ""); }
      var delim, start := At(s, t + 1), At(s, t + 2) == '^';
      var l := ReadText(s, Min(if start then t + 3 else t + 2, |s|), delim, delim, Lhs, want, b);
      if !l.Done? || !l.ok { return l; }
      r := ReadText(s, l.next + 1, delim, delim, Rhs(l.out), want, b);
      if !r.Done? || !r.ok { return Before("", l.bare, r); }
      r := Replace(s, r.next, endc, l, r, start, val, want);
    }

    /** The end of that modifier: perhaps a 'g', and the substitution in the words of the value. */
    method Replace(s: string, k: nat, endc: char, l: Outcome, r: Outcome, start: bool, val: string, want: bool)
      returns (v: Outcome)
      requires k < |s| && l.Done? && r.Done?
      ensures v == Replaced(s, k, endc, l, r, start, val, want)
    {
      var global := At(s, k + 1) == 'g';
      v := Closed(s, if global then k + 2 else k + 1, endc, "", l.bare || r.bare);
      if want && v.ok {
        var p := Pattern(l.out, r.out, global, start, l.atEnd);
        if Fields(val, 0) != [] && !Ends(p) {
          v := Endless;
        } else if Fields(val, 0) != [] {
          var text := ModifyWords(p, val);
          v := v.(out := text);
        }
      }
    }

    /** VarModify with VarSubstitute, into a buffer of its own. */
    method ModifyWords(p: Pattern, val: string) returns (text: string)
      requires Ends(p)
      ensures text == Spaced(NonEmpty(RewriteAll(p, Fields(val, 0), false)))
    {
      var buf := new Buffer(0);
      var sub := new Substitution(p);
      VarModify(val, buf, sub);
      ghost var goal := Spaced(NonEmpty(RewriteAll(p, Fields(val, 0), false)));
      assert buf.Contents() == goal by { assert "" + goal == goal; }
      var n := buf.Size();
      text := buf.GetBytes(n);
      assert text == goal[..n] && goal[..n] == goal;
    }

    /** The modifier @: the variable is added for the words, and removed after them. */
    method Loop(s: string, t: nat, endc: char, val: string, want: bool, ghost b: nat) returns (r: Outcome)
      requires t < |s| && !Expansion.Loop(Now(b), s, t, endc, val, want).Spent?
      modifies this
      ensures r == Expansion.Loop(old(Now(b)), s, t, endc, val, want)
      ensures r.Done? ==> Now(b) == old(Now(b))
      decreases b, |s| - t, 2
    {
      var at := Find(s, t + 1, '@');
      if at == |s| { return End(false, at, ""); }
      var words := if want then Fields(val, 0) else [];
      if words == [] {
        r := ReadText(s, at + 1, '@', '@', Plain, false, b);
      } else {
        r := Pieces(s, at + 1, s[t + 1..at], words, b);
      }
      r := ClosedAfter(s, r, endc);
    }

    /** VarModify with VarIndirect: the text is expanded for each word. */
    method Pieces(s: string, j: nat, name: string, words: seq<string>, ghost b: nat) returns (r: Outcome)
      requires j <= |s| && words != [] && !Expansion.Pieces(Now(b), s, j, name, words).Spent?
      modifies this
      ensures r == Expansion.Pieces(old(Now(b)), s, j, name, words)
      ensures r.Done? ==> Now(b) == old(Now(b))
      decreases b, |s| - j, 2
    {
      var vars0, inUse0 := vars, inUse;
      ghost var e := Now(b);
      var k, acc: Option<Outcome> := 0, None;
      while k < |words|
        invariant k <= |words| && e == Env(w, vars0, inUse0, b, skip)
        invariant acc.Some? ==> acc.value.Done?
        invariant k < |words| ==> !Expansion.Pieces(e, s, j, name, words[k..]).Spent?
        invariant if k < |words|
                  then Joined(s, j, acc, Expansion.Pieces(e, s, j, name, words[k..])) == Expansion.Pieces(e, s, j, name, words)
                  else acc == Some(Expansion.Pieces(e, s, j, name, words))
      {
        vars, inUse := vars0[name := words[k]], inUse0 - {name};
        assert words[k..][1..] == words[k + 1..];
        var piece := ReadText(s, j, '@', '@', Plain, true, b);
        if !piece.Done? { return piece; }
        if k + 1 < |words| { JoinedTwice(s, j, acc, piece, Expansion.Pieces(e, s, j, name, words[k + 1..])); }
        acc := Some(Joined(s, j, acc, piece));
        k := k + 1;
      }
      vars, inUse := vars0, inUse0;
      r := acc.value;
    }
  }

  /** The pieces so far, and one more. */
  function Joined(s: string, j: nat, acc: Option<Outcome>, r: Outcome): Outcome
    requires acc.Some? ==> acc.value.Done?
  {
    if acc.None? || !r.Done? then r
    else
      acc.value.(out := acc.value.out + (if At(s, j) == '@' then "" else " ") + r.out, bare := acc.value.bare || r.bare)
  }

  lemma JoinedTwice(s: string, j: nat, acc: Option<Outcome>, piece: Outcome, r: Outcome)
    requires (acc.Some? ==> acc.value.Done?) && piece.Done?
    ensures Joined(s, j, Some(Joined(s, j, acc, piece)), r) == Joined(s, j, acc, Joined(s, j, Some(piece), r))
  {
    if acc.Some? && r.Done? {
      var sep := if At(s, j) == '@' then "" else " ";
      assert (acc.value.out + sep + piece.out) + sep + r.out == acc.value.out + sep + (piece.out + sep + r.out);
    }
  }

  /** What follows on the name of a variable. */
  function Rest(e: Env, s: string, endc: char, k: nat, name: string, bare: bool): Outcome
    requires k < |s|
  {
    if s[k] == endc then Before("", bare, Expansion.Value(e, s, name, k + 1))
    else
      var v := Expansion.ValueOf(e, name);
      if v.Done? then Before("", bare, Modifiers(e, s, k + 1, endc, name, name !in e.vars, v.out, true)) else v
  }
}
