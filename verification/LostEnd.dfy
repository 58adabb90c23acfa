/** Exactly when looking for the end of a modifier :S misses it. */
module LostEnd {
  import opened Words
  import opened Expansion

  /** No specification inside of a text, up to its delimiter, has a replacement that ends in a bare
    * dollar sign. */
  predicate Calm(e: Env, s: string, j: nat, stop1: char, stop2: char, kind: Kind)
    requires j <= |s|
    decreases |s| - j
  {
    match Peek(s, j, stop1, stop2, kind)
    case Ampersand => Calm(e, s, j + 1, stop1, stop2, kind)
    case Take(c, k) => Calm(e, s, k, stop1, stop2, kind)
    case Nested =>
      var v := VarParse(e, s, j, false);
      v.Done? && !v.bare && Calm(e, s, v.next, stop1, stop2, kind)
    case _ => true
  }

  /** Then all that the two modes differ in is a bare dollar sign at the end of the text itself, which is
    * skipped with a buffer. */
  lemma {:induction false} BareIsSkipped(e: Env, s: string, j: nat, stop: char, kind: Kind, kind0: Kind)
    requires j <= |s| && Alike(kind, kind0) && Calm(e, s, j, stop, stop, kind0)
    ensures var r, k := Body(e, s, j, stop, stop, kind, true), Body(e, s, j, stop, stop, kind0, false);
      r.Done? && r.ok ==> Skipped(s, stop, r, k)
    decreases |s| - j, 1
  {
    match Peek(s, j, stop, stop, kind)
    case Ampersand =>
      BareIsSkipped(e, s, j + 1, stop, kind, kind0);
      AmpersandIsSkipped(e, s, j, stop, kind, kind0);
    case Take(c, k) =>
      BareIsSkipped(e, s, k, stop, kind, kind0);
      TakenIsSkipped(e, s, j, stop, kind, kind0);
    case Nested => NestedIsSkipped(e, s, j, stop, kind, kind0);
    case _ => EndIsSkipped(e, s, j, stop, kind, kind0);
  }

  lemma AmpersandIsSkipped(e: Env, s: string, j: nat, stop: char, kind: Kind, kind0: Kind)
    requires j < |s| && Alike(kind, kind0) && Peek(s, j, stop, stop, kind).Ampersand?
    requires var r, k := Body(e, s, j + 1, stop, stop, kind, true), Body(e, s, j + 1, stop, stop, kind0, false);
      r.Done? && r.ok ==> Skipped(s, stop, r, k)
    ensures var r, k := Body(e, s, j, stop, stop, kind, true), Body(e, s, j, stop, stop, kind0, false);
      r.Done? && r.ok ==> Skipped(s, stop, r, k)
  {
    assert Body(e, s, j, stop, stop, kind, true) == Before(kind.lhs, false, Body(e, s, j + 1, stop, stop, kind, true));
    assert Body(e, s, j, stop, stop, kind0, false) == Before("", false, Body(e, s, j + 1, stop, stop, kind0, false));
  }

  lemma TakenIsSkipped(e: Env, s: string, j: nat, stop: char, kind: Kind, kind0: Kind)
    requires j <= |s| && Alike(kind, kind0) && Peek(s, j, stop, stop, kind).Take?
    requires var i := Peek(s, j, stop, stop, kind).next;
      var r, k := Body(e, s, i, stop, stop, kind, true), Body(e, s, i, stop, stop, kind0, false);
      r.Done? && r.ok ==> Skipped(s, stop, r, k)
    ensures var r, k := Body(e, s, j, stop, stop, kind, true), Body(e, s, j, stop, stop, kind0, false);
      r.Done? && r.ok ==> Skipped(s, stop, r, k)
  {
    var p := Peek(s, j, stop, stop, kind);
    assert Body(e, s, j, stop, stop, kind, true) == Before([p.c], false, Body(e, s, p.next, stop, stop, kind, true));
    assert Body(e, s, j, stop, stop, kind0, false) == Before("", false, Body(e, s, p.next, stop, stop, kind0, false));
  }

  lemma EndIsSkipped(e: Env, s: string, j: nat, stop: char, kind: Kind, kind0: Kind)
    requires j <= |s| && Alike(kind, kind0)
    requires var p := Peek(s, j, stop, stop, kind); !p.Ampersand? && !p.Take? && !p.Nested?
    ensures var r, k := Body(e, s, j, stop, stop, kind, true), Body(e, s, j, stop, stop, kind0, false);
      r.Done? && r.ok ==> Skipped(s, stop, r, k)
  {
  }

  predicate Skipped(s: string, stop: char, r: Outcome, k: Outcome) {
    r.Done? && k.Done? && k.ok && r.next < |s| && s[r.next] == stop && r.next == k.next + if k.bare then 1 else 0
  }

  lemma {:induction false} NestedIsSkipped(e: Env, s: string, j: nat, stop: char, kind: Kind, kind0: Kind)
    requires j <= |s| && Alike(kind, kind0) && Calm(e, s, j, stop, stop, kind0) && Peek(s, j, stop, stop, kind).Nested?
    ensures var r, k := Body(e, s, j, stop, stop, kind, true), Body(e, s, j, stop, stop, kind0, false);
      r.Done? && r.ok ==> Skipped(s, stop, r, k)
    decreases |s| - j, 0
  {
    var v, v0 := VarParse(e, s, j, true), VarParse(e, s, j, false);
    ParseAgrees(e, s, j);
    if v.Done? {
      var r, k := Body(e, s, v.next, stop, stop, kind, true), Body(e, s, v.next, stop, stop, kind0, false);
      assert Body(e, s, j, stop, stop, kind, true) == Before(v.out, v.bare, r);
      assert Body(e, s, j, stop, stop, kind0, false) == Before(v0.out, v0.bare, k);
      BareIsSkipped(e, s, v.next, stop, kind, kind0);
    }
  }

  /** Where :S ends, when its right side was read up to k with a buffer and up to k0 without one. */
  lemma {:induction false} TwoEnds(s: string, delim: char, k: nat, k0: nat, endc: char, l: Outcome, r: Outcome,
      l0: Outcome, r0: Outcome, start: bool, val: string)
    requires k0 <= k < |s| && k <= k0 + 1 && s[k] == delim && l.Done? && r.Done? && l0.Done? && r0.Done?
    ensures var v, v0 := Replaced(s, k, endc, l, r, start, val, true), Replaced(s, k0, endc, l0, r0, start, "", false);
      v0.Done? && (v.Done? ==> (v.next == v0.next <==> k == k0 || (delim == 'g' && At(s, k + 1) != 'g')))
  {
  }

  /** Both modes read both sides to their ends, and there is no such replacement inside of them. */
  predicate BothRead(e: Env, s: string, t: nat)
    requires t + 1 < |s|
  {
    var (l, r) := Sides(e, s, t, true);
    var (l0, _) := Sides(e, s, t, false);
    && l.Done? && l.ok && r.Done? && r.ok && l0.Done? && l0.ok && !l0.bare
    && l0.next + 1 <= |s| && Calm(e, s, l0.next + 1, s[t + 1], s[t + 1], Rhs(""))
  }

  lemma {:induction false} SidesSkip(e: Env, s: string, t: nat)
    requires t + 1 < |s| && BothRead(e, s, t)
    ensures var (l, r) := Sides(e, s, t, true); var (l0, r0) := Sides(e, s, t, false);
      r0.Done? && r0.ok && r.next < |s| && s[r.next] == s[t + 1] && r.next == r0.next + if r0.bare then 1 else 0
  {
    SidesAgree(e, s, t);
    var (l, r) := Sides(e, s, t, true);
    var (l0, r0) := Sides(e, s, t, false);
    LeftIsNothing(e, s, t);
    BareIsSkipped(e, s, l0.next + 1, s[t + 1], Rhs(l.out), Rhs(""));
  }

  lemma {:induction false} LeftIsNothing(e: Env, s: string, t: nat)
    requires t + 1 < |s|
    ensures var (l0, _) := Sides(e, s, t, false); l0.Done? && l0.out == ""
  {
    var delim := s[t + 1];
    BodyOfText(e, e, s, Min(if At(s, t + 2) == '^' then t + 3 else t + 2, |s|), delim, delim, Lhs);
  }

  /** The end of a modifier :S is lost exactly if its right side ends in a bare dollar sign; unless the
    * delimiter is a 'g' and none follows it, when without a buffer the delimiter is taken for a flag. */
  lemma {:induction false} EndIsLostExactlyWhen(e: Env, s: string, t: nat, endc: char, val: string)
    requires t + 1 < |s| && BothRead(e, s, t)
    ensures var (_, r) := Sides(e, s, t, true); var (_, r0) := Sides(e, s, t, false);
      var v, v0 := Substitute(e, s, t, endc, val, true), Substitute(e, s, t, endc, "", false);
      && v0.Done? && r0.Done?
      && (v.Done? ==> (v.next != v0.next <==> r0.bare && !(s[t + 1] == 'g' && At(s, r.next + 1) != 'g')))
  {
    var (l, r) := Sides(e, s, t, true);
    var (l0, r0) := Sides(e, s, t, false);
    SidesSkip(e, s, t);
    assert Substitute(e, s, t, endc, val, true) == Replaced(s, r.next, endc, l, r, At(s, t + 2) == '^', val, true) by {
      SubstituteBySides(e, s, t, endc, val, true);
    }
    assert Substitute(e, s, t, endc, "", false) == Replaced(s, r0.next, endc, l0, r0, At(s, t + 2) == '^', "", false) by {
      SubstituteBySides(e, s, t, endc, "", false);
    }
    TwoEnds(s, s[t + 1], r.next, r0.next, endc, l, r, l0, r0, At(s, t + 2) == '^', val);
  }
}
