/** With the modifier @, expansion need not come to an end. */
module LoopForever {
  import opened Words
  import opened Expansion
  import opened ExpansionLaws

  const TEXT := "${A:@x@$x@}"
  const VALUE := "$${A:@x@$$x@}"

  lemma LoopName(e: Env)
    ensures Body(e, TEXT, 2, '}', ':', Name, true) == End(true, 3, "A")
  {
    assert Body(e, TEXT, 3, '}', ':', Name, true) == End(true, 3, "");
    assert Peek(TEXT, 2, '}', ':', Name) == Take('A', 3);
    assert "A" + "" == "A";
  }

  lemma LoopValue(e: Env)
    ensures VarSubst(e, VALUE, 0) == End(true, 13, TEXT)
  {
    assert VALUE[0] == '$' == VALUE[1] && VALUE[8] == '$' == VALUE[9];
    PlainTail(e, VALUE, 10);
    PlainPart(e, VALUE, 2, 8);
    var rest := VarSubst(e, VALUE, 8);
    assert At(VALUE, 9) == '$' && At(VALUE, 1) == '$';
    assert rest == Before("$", false, VarSubst(e, VALUE, 10));
    assert VarSubst(e, VALUE, 0) == Before("$", false, VarSubst(e, VALUE, 2));
    assert "$" + (VALUE[2..8] + ("$" + VALUE[10..])) == TEXT;
  }

  lemma {:induction false} OneWord()
    ensures Fields(TEXT, 0) == [TEXT]
  {
    assert forall k :: 0 <= k < |TEXT| ==> !Blank(TEXT[k]);
    assert SkipBlanks(TEXT, 0) == 0 && WordEnd(TEXT, 0) == |TEXT| && SkipBlanks(TEXT, |TEXT|) == |TEXT|;
    assert TEXT[0..|TEXT|] == TEXT;
  }

  /** A has a value that expands to TEXT, and is not being expanded. */
  predicate Winding(e: Env) {
    "A" in e.vars && e.vars["A"] == VALUE && "A" !in e.inUse
  }

  /** The text in the loop: x has TEXT for its value. */
  lemma {:induction false} LoopBody(e: Env)
    requires Winding(e) && "x" in e.vars && e.vars["x"] == TEXT && "x" !in e.inUse
    ensures Body(e, TEXT, 7, '@', '@', Plain, true).Spent?
    decreases e.budget, 0
  {
    assert Peek(TEXT, 7, '@', '@', Plain) == Nested && At(TEXT, 8) == 'x';
    assert VarParse(e, TEXT, 7, true) == Value(e, TEXT, "x", 9);
    assert TEXT[0] == '$';
    if e.budget > 0 {
      var e1 := e.(inUse := e.inUse + {"x"}, budget := e.budget - 1);
      Forever(e1);
      assert ValueOf(e, "x") == VarSubst(e1, TEXT, 0);
    }
    assert ValueOf(e, "x").Spent?;
  }

  /** The value of A gives one word, which x takes for its value; and to expand that is where this began. */
  lemma {:induction false} Forever(e: Env)
    requires Winding(e)
    ensures VarSubst(e, TEXT, 0).Spent?
    decreases e.budget, 2
  {
    assert TEXT[0] == '$' && At(TEXT, 1) == '{';
    assert VarParse(e, TEXT, 0, true) == Bounded(e, TEXT, 2, '}', true);
    LoopName(e);
    assert VALUE[0] == '$';
    if e.budget > 0 {
      var e1 := e.(inUse := e.inUse + {"A"}, budget := e.budget - 1);
      LoopValue(e1);
      assert ValueOf(e, "A") == VarSubst(e1, VALUE, 0);
      LoopModifier(e);
    }
    assert Bounded(e, TEXT, 2, '}', true).Spent?;
  }

  lemma {:induction false} LoopModifier(e: Env)
    requires Winding(e)
    ensures Modifiers(e, TEXT, 4, '}', "A", false, TEXT, true).Spent?
    decreases e.budget, 1
  {
    OneWord();
    assert At(TEXT, 4) == '@' && Find(TEXT, 5, '@') == 6 && TEXT[5..6] == "x";
    var e1 := e.(vars := e.vars["x" := TEXT], inUse := e.inUse - {"x"});
    LoopBody(e1);
    assert Pieces(e, TEXT, 7, "x", [TEXT]) == Body(e1, TEXT, 7, '@', '@', Plain, true);
    assert Loop(e, TEXT, 4, '}', TEXT, true).Spent?;
  }

  /** However large the budget is, this expansion spends it: the program calls itself for ever, although
    * no variable is reached while it is being expanded.  x is added anew, and not in use, each time. */
  lemma LoopNeverEnds(w: World, skip: bool, budget: nat)
    ensures VarSubst(Env(w, map["A" := VALUE], {}, budget, skip), TEXT, 0).Spent?
  {
    Forever(Env(w, map["A" := VALUE], {}, budget, skip));
  }
}
