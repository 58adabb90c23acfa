/** Running make again right after a successful run. */
module SecondRun {
  import opened Graph
  import opened Scheduler
  import opened Protocol
  import opened JobTable
  import opened Readiness
  import opened Commands
  import opened Times
  import opened Outcome

  /** The stamps of the files come from a clock that starts at t and does not go back. */
  ghost predicate Clocked(c: Config, s0: State, actions: seq<Action>, t: int)
    requires Shaped(c) && Sized(c, s0)
    decreases |actions|
  {
    actions == [] ||
    (&& Enabled(s0, actions[0])
     && (actions[0].DoExit? ==> actions[0].stamp >= t)
     && Clocked(c, Apply(c, s0, actions[0]), actions[1..], if actions[0].DoExit? then actions[0].stamp else t))
  }

  /** No file is dated in the future, and a file that was made is not older than those it was
    * made from. */
  ghost predicate Dated(c: Config, ft0: seq<int>, s: State, t: int) {
    && Shaped(c) && Sized(c, s) && |ft0| == c.size && t > 0
    && (forall n: Node :: n < c.size ==> s.ftime[n] <= t)
    && (forall n: Node :: n < c.size && LogOf(c, s.log, n) == [] ==> s.ftime[n] == ft0[n])
    && (forall n: Node :: n < c.size && LogOf(c, s.log, n) != [] ==> s.ftime[n] > 0)
    && (forall n: Node, y: Node :: n < c.size && LogOf(c, s.log, n) != [] && y in c.children[n] && y < c.size ==>
          s.ftime[y] <= s.ftime[n])
  }

  lemma ExitKeepsDated(c: Config, ft0: seq<int>, s: State, t: int, a: Action)
    requires Dated(c, ft0, s, t) && a.DoExit? && Enabled(s, a) && a.stamp >= t
    requires Awaited(c, s.order, s.jobs[a.i].node)
    requires forall n: Node :: n < c.size && LogOf(c, s.log, n) != [] ==> n in s.order
    ensures Dated(c, ft0, Apply(c, s, a), a.stamp)
  {
    var n, r := s.jobs[a.i].node, Apply(c, s, a);
    ExitTouchesOneFile(c, s, a.i, a.status, a.stamp);
    var last := Ran(n, s.cursor[n], a.status);
    forall m: Node | m < c.size
      ensures LogOf(c, r.log, m) == LogOf(c, s.log, m) + if n == m then [Judged(c, last)] else []
    {
      LogGrows(c, s.log, last, m);
    }
    forall m: Node, y: Node | m < c.size && LogOf(c, r.log, m) != [] && y in c.children[m] && y < c.size
      ensures r.ftime[y] <= r.ftime[m]
    {
      if m != n { assert m in s.order && y != n; }
    }
  }

  lemma LoggedIsExamined(c: Config, s: State)
    requires Inv(c, s) && LogOk(c, s, {})
    ensures forall n: Node :: n < c.size && LogOf(c, s.log, n) != [] ==> n in s.order
  {
    forall n: Node | n < c.size && LogOf(c, s.log, n) != [] ensures n in s.order {
      assert LogFits(c, s, n);
      var claims := Claims(TableOf(s)) + multiset{};
      assert n in s.abandoned || NodesOf(s.jobs)[n] > 0 ==> claims[n] >= 1;
    }
  }

  lemma StepKeepsDated(c: Config, ft0: seq<int>, s: State, t: int, a: Action)
    requires Inv(c, s) && LogOk(c, s, {}) && Dated(c, ft0, s, t) && Enabled(s, a)
    requires a.DoExit? ==> a.stamp >= t
    ensures Dated(c, ft0, Apply(c, s, a), if a.DoExit? then a.stamp else t)
  {
    if a.DoExit? {
      RunningNode(c, s, a.i);
      IsAwaited(c, ProgressOf(s), s.jobs[a.i].node);
      LoggedIsExamined(c, s);
      ExitKeepsDated(c, ft0, s, t, a);
    } else {
      OnlyExitsTouchFiles(c, s, a);
    }
  }

  lemma {:induction false} RunKeepsDated(c: Config, ft0: seq<int>, s0: State, actions: seq<Action>, s1: State, t: int)
    returns (t': int)
    requires Inv(c, s0) && LogOk(c, s0, {}) && Dated(c, ft0, s0, t)
    requires Run(c, s0, actions, s1) && Clocked(c, s0, actions, t)
    ensures Dated(c, ft0, s1, t')
    decreases |actions|
  {
    if actions == [] {
      t' := t;
    } else {
      var a := actions[0];
      StepKeeps(c, s0, a);
      StepKeepsLog(c, s0, a);
      StepKeepsDated(c, ft0, s0, t, a);
      t' := RunKeepsDated(c, ft0, Apply(c, s0, a), actions[1..], s1, if a.DoExit? then a.stamp else t);
    }
  }

  // ---------------------------------------------------------- the first run

  /** A run from s0 to s in which no file is dated later than the clock at the start, and the
    * clock does not go back. */
  ghost predicate ClockedRun(c: Config, ft0: seq<int>, s0: State, actions: seq<Action>, t: int, s: State) {
    && Initial(c, s0) && s0.ftime == ft0 && Run(c, s0, actions, s) && Clocked(c, s0, actions, t)
    && t > 0 && (forall x :: 0 <= x < c.size ==> ft0[x] <= t)
  }

  /** s is the end of a complete run of that kind without failures, and every marked node is an
    * ordinary ':' target or source. */
  ghost predicate FirstRun(c: Config, ft0: seq<int>, s: State) {
    && CleanEnd(c, s) && s.numNodes == 0 && |ft0| == c.size
    && (forall x :: 0 <= x < c.size && s.make[x] ==> c.attr[x].Plain())
    && exists s0, actions, t :: ClockedRun(c, ft0, s0, actions, t, s)
  }

  /** What such a run leaves behind. */
  ghost predicate Completed(c: Config, ft0: seq<int>, s: State) {
    && Coherent(c, ft0, s.made, s.mtime, s.ftime) && ChildrenFirst(c, s.order) && |s.make| == c.size
    && (forall x: Node :: x < c.size && s.make[x] ==> c.attr[x].Plain() && Settled(s.made[x]) && x in s.order)
    && (forall x: Node :: x < c.size && s.make[x] && !(s.made[x].Remade? && HasCommand(c, x)) ==> s.ftime[x] == ft0[x])
    && (forall x: Node :: x < c.size && s.made[x].Remade? && HasCommand(c, x) ==> s.ftime[x] > 0)
    && (forall x: Node, y: Node ::
          x < c.size && s.made[x].Remade? && HasCommand(c, x) && y in c.children[x] && y < c.size ==> s.ftime[y] <= s.ftime[x])
    && (forall x: Node, y: Node :: x < c.size && s.make[x] && y in c.children[x] ==> y < c.size && s.make[y])
  }

  lemma InitialLogAndDates(c: Config, s: State, t: int)
    requires Initial(c, s) && t > 0 && (forall x :: 0 <= x < c.size ==> s.ftime[x] <= t)
    ensures LogOk(c, s, {}) && Dated(c, s.ftime, s, t)
  {
    assert forall n: Node :: LogOf(c, s.log, n) == [];
    assert forall n: Node :: NodesOf(s.jobs)[n] == 0;
  }

  lemma ClockedRunInvariants(c: Config, ft0: seq<int>, s0: State, actions: seq<Action>, t: int, s: State)
    returns (t': int)
    requires ClockedRun(c, ft0, s0, actions, t, s)
    ensures Sized(c, s) && LogOk(c, s, {}) && Dated(c, ft0, s, t')
  {
    InitialInv(c, s0);
    InitialLogAndDates(c, s0, t);
    RunKeepsLog(c, s0, actions, s);
    t' := RunKeepsDated(c, ft0, s0, actions, s, t);
  }

  lemma ClockedRunTimes(c: Config, ft0: seq<int>, s0: State, actions: seq<Action>, t: int, s: State)
    requires ClockedRun(c, ft0, s0, actions, t, s)
    ensures Inv(c, s) && TimesOk(c, ft0, s)
  {
    InitialInv(c, s0);
    InitialTimes(c, s0);
    RunKeepsTimes(c, ft0, s0, actions, s);
  }

  lemma Touched(c: Config, ft0: seq<int>, s: State, t: int)
    requires CleanEnd(c, s) && LogOk(c, s, {}) && Dated(c, ft0, s, t)
    requires forall x: Node :: x < c.size && s.make[x] ==> Settled(s.made[x])
    ensures forall x: Node :: x < c.size && s.make[x] && !(s.made[x].Remade? && HasCommand(c, x)) ==> LogOf(c, s.log, x) == []
    ensures forall x: Node :: x < c.size && s.made[x].Remade? && HasCommand(c, x) ==> LogOf(c, s.log, x) != []
  {
    CleanEndFacts(c, s);
    forall x: Node | x < c.size
      ensures s.make[x] && !(s.made[x].Remade? && HasCommand(c, x)) ==> LogOf(c, s.log, x) == []
      ensures s.made[x].Remade? && HasCommand(c, x) ==> LogOf(c, s.log, x) != []
    {
      TouchedIfCommand(c, s, x);
    }
  }

  lemma FirstRunCompletes(c: Config, ft0: seq<int>, s: State)
    requires FirstRun(c, ft0, s)
    ensures Completed(c, ft0, s)
  {
    var s0, actions, t0 :| ClockedRun(c, ft0, s0, actions, t0, s);
    var t := ClockedRunInvariants(c, ft0, s0, actions, t0, s);
    ClockedRunTimes(c, ft0, s0, actions, t0, s);
    CycleTheorem(c, s);
    RunIsCoherent(c, ft0, s);
    Touched(c, ft0, s, t);
  }

  lemma {:induction false} NewestBounded(c: Config, made: seq<Made>, mtime: seq<int>, kids: seq<Node>, b: int)
    requires Shaped(c) && |made| == |mtime| == c.size && Within(kids, c.size) && b >= 0
    requires forall y :: y in kids ==> Report(c.attr[y], made[y], mtime[y]) <= b
    ensures 0 <= Newest(c, made, mtime, kids) <= b
  {
    if kids != [] {
      assert Within(kids[1..], c.size);
      assert forall y :: y in kids[1..] ==> y in kids;
      assert kids[0] in kids;
      NewestBounded(c, made, mtime, kids[1..], b);
    }
  }

  /** After the first run the files of a node's children are not newer than its own. */
  ghost predicate Fresh(c: Config, make: seq<bool>, ft: seq<int>) {
    && Shaped(c) && |make| == |ft| == c.size
    && (forall x: Node :: x < c.size && make[x] ==> ft[x] > 0)
    && (forall x: Node, y: Node :: x < c.size && make[x] && y in c.children[x] && y < c.size ==> ft[y] <= ft[x])
  }

  /** What a settled child of the first run reports is the time of its file. */
  lemma ReportIsFileTime(c: Config, ft0: seq<int>, s: State, y: Node)
    requires Completed(c, ft0, s) && y < c.size && s.make[y]
    requires s.made[y].Remade? ==> HasCommand(c, y)
    ensures Report(c.attr[y], s.made[y], s.mtime[y]) == s.ftime[y]
  {
  }

  lemma FirstRunIsFresh(c: Config, ft0: seq<int>, s: State)
    requires Completed(c, ft0, s)
    requires forall x: Node :: x < c.size && s.make[x] && s.made[x].Remade? ==> HasCommand(c, x)
    ensures Fresh(c, s.make, s.ftime)
  {
    forall x: Node | x < c.size && s.make[x]
      ensures s.ftime[x] > 0 && forall y :: y in c.children[x] && y < c.size ==> s.ftime[y] <= s.ftime[x]
    {
      if s.made[x].UpToDate? { UpToDateIsFresh(c, ft0, s, x); }
    }
  }

  lemma UpToDateIsFresh(c: Config, ft0: seq<int>, s: State, x: Node)
    requires Completed(c, ft0, s) && x < c.size && s.make[x] && s.made[x].UpToDate?
    requires forall y: Node :: y < c.size && s.make[y] && s.made[y].Remade? ==> HasCommand(c, y)
    ensures s.ftime[x] > 0 && forall y :: y in c.children[x] && y < c.size ==> s.ftime[y] <= s.ftime[x]
  {
    NewestNotNegative(c, s.made, s.mtime, c.children[x]);
    forall y: Node | y in c.children[x] && y < c.size ensures s.ftime[y] <= s.ftime[x] {
      ReportIsFileTime(c, ft0, s, y);
      NewestCovers(c, s.made, s.mtime, c.children[x], y);
    }
  }

  lemma {:induction false} NewestNotNegative(c: Config, made: seq<Made>, mtime: seq<int>, kids: seq<Node>)
    requires Shaped(c) && |made| == |mtime| == c.size && Within(kids, c.size)
    ensures Newest(c, made, mtime, kids) >= 0
  {
    if kids != [] {
      assert Within(kids[1..], c.size);
      NewestNotNegative(c, made, mtime, kids[1..]);
    }
  }

  // --------------------------------------------------------- the second run

  /** Nothing has been started, and whatever was examined was up to date. */
  ghost predicate Idle(s: State) {
    && s.jobs == s.held == [] && s.refused == s.abandoned == [] && s.log == [] && s.errors == 0
    && forall x :: x in s.order && x < |s.made| ==> s.made[x].UpToDate?
  }

  lemma NothingIsStale(c: Config, ft: seq<int>, s: State, n: Node)
    requires Inv(c, s) && TimesOk(c, ft, s) && Fresh(c, s.make, ft) && Idle(s)
    requires n < c.size && s.make[n] && c.attr[n].Plain()
    requires forall y :: y in c.children[n] ==> y < c.size && Settled(s.made[y])
    requires forall y :: 0 <= y < c.size && s.make[y] ==> c.attr[y].Plain()
    ensures !Stale(c, ft, s.made, s.mtime, n)
  {
    forall y | y in c.children[n] ensures Report(c.attr[y], s.made[y], s.mtime[y]) <= ft[n] {
      assert s.make[y];
    }
    NewestBounded(c, s.made, s.mtime, c.children[n], ft[n]);
  }

  /** The head of the queue of an idle run is up to date. */
  lemma HeadIsUpToDate(c: Config, ft: seq<int>, s: State)
    requires Inv(c, s) && TimesOk(c, ft, s) && Fresh(c, s.make, ft) && Idle(s)
    requires s.toBeMade != [] && !Blocked(c, s, s.toBeMade[0])
    requires forall y :: 0 <= y < c.size && s.make[y] ==> c.attr[y].Plain()
    ensures !IsOut(c, Seen(c, s), s.toBeMade[0])
  {
    var n, seen := s.toBeMade[0], Seen(c, s);
    QueueHead(c, s);
    BeginKeepsCore(c, ProgressOf(s));
    assert Justified(c, Begun(ProgressOf(s)), |s.order|);
    NothingIsStale(c, ft, s, n);
    SeenTimes(c, ft, s);
    NewestSame(c, s.made, s.mtime, seen.made, seen.mtime, c.children[n]);
  }

  lemma PassingIsIdle(c: Config, s: State)
    requires Shaped(c) && Sized(c, s) && Idle(s) && s.toBeMade != []
    requires !Blocked(c, s, s.toBeMade[0]) && !IsOut(c, Seen(c, s), s.toBeMade[0])
    ensures Idle(Examine(c, s)) && Examine(c, s).make == s.make
  {
    UpdateFrame(c, PassOver(c, Seen(c, s), s.toBeMade[0]), s.toBeMade[0]);
  }

  lemma StepKeepsIdle(c: Config, ft: seq<int>, s: State, a: Action)
    requires Inv(c, s) && TimesOk(c, ft, s) && Fresh(c, s.make, ft) && Idle(s) && Enabled(s, a)
    requires forall y :: 0 <= y < c.size && s.make[y] ==> c.attr[y].Plain()
    ensures Idle(Apply(c, s, a)) && Apply(c, s, a).make == s.make
  {
    if a.DoExamine? && !Blocked(c, s, s.toBeMade[0]) {
      HeadIsUpToDate(c, ft, s);
      PassingIsIdle(c, s);
    }
  }

  lemma {:induction false} RunKeepsIdle(c: Config, ft: seq<int>, s0: State, actions: seq<Action>, s1: State)
    requires Inv(c, s0) && TimesOk(c, ft, s0) && Fresh(c, s0.make, ft) && Idle(s0) && Run(c, s0, actions, s1)
    requires forall y :: 0 <= y < c.size && s0.make[y] ==> c.attr[y].Plain()
    ensures Idle(s1)
    decreases |actions|
  {
    if actions != [] {
      StepKeeps(c, s0, actions[0]);
      StepKeepsTimes(c, ft, s0, actions[0]);
      StepKeepsIdle(c, ft, s0, actions[0]);
      RunKeepsIdle(c, ft, Apply(c, s0, actions[0]), actions[1..], s1);
    }
  }

  /** s' is reached by a run that starts from the files that the first run left, with the same marks. */
  ghost predicate AgainAfter(c: Config, s: State, s': State) {
    && WellFormed(c) && Sized(c, s')
    && exists s0, actions :: Initial(c, s0) && s0.ftime == s.ftime && s0.make == s.make && Run(c, s0, actions, s')
  }

  /** If every node that the first run made has a command, then at no moment of the second run is
    * anything started, and whatever has been examined is up to date. */
  lemma SecondRunIsIdle(c: Config, ft0: seq<int>, s: State, s': State)
    requires FirstRun(c, ft0, s) && AgainAfter(c, s, s')
    requires forall x: Node :: x < c.size && s.make[x] && s.made[x].Remade? ==> HasCommand(c, x)
    ensures s'.jobs == s'.held == [] && s'.log == [] && s'.refused == [] && s'.errors == 0
    ensures forall x :: x in s'.order && x < c.size ==> s'.made[x].UpToDate?
  {
    FirstRunCompletes(c, ft0, s);
    FirstRunIsFresh(c, ft0, s);
    var s0, actions :| Initial(c, s0) && s0.ftime == s.ftime && s0.make == s.make && Run(c, s0, actions, s');
    InitialInv(c, s0);
    InitialTimes(c, s0);
    RunKeepsIdle(c, s.ftime, s0, actions, s');
  }

  /** A node that was made without a command, and none of whose children was, would be out of date
    * again. */
  lemma CommandlessIsStaleAgain(c: Config, ft0: seq<int>, s: State, s': State, x: Node)
    requires Completed(c, ft0, s) && x < c.size && s.make[x]
    requires s.made[x].Remade? && !HasCommand(c, x)
    requires forall y :: y in c.children[x] && y < c.size && s.made[y].Remade? ==> HasCommand(c, y)
    requires TimesOk(c, s.ftime, s')
    requires forall y :: y in c.children[x] ==> y < c.size && s'.made[y].UpToDate?
    ensures Stale(c, s.ftime, s'.made, s'.mtime, x)
  {
    var kids := c.children[x];
    forall i | 0 <= i < |kids|
      ensures Report(c.attr[kids[i]], s.made[kids[i]], s.mtime[kids[i]])
           == Report(c.attr[kids[i]], s'.made[kids[i]], s'.mtime[kids[i]])
    {
      assert kids[i] in kids;
      ReportIsFileTime(c, ft0, s, kids[i]);
    }
    NewestSame(c, s.made, s.mtime, s'.made, s'.mtime, kids);
    assert Stale(c, ft0, s.made, s.mtime, x);
  }

  lemma {:induction false} MarksAreKept(c: Config, s0: State, actions: seq<Action>, s1: State)
    requires Shaped(c) && Sized(c, s0) && Run(c, s0, actions, s1)
    ensures s1.make == s0.make
    decreases |actions|
  {
    if actions != [] {
      var a := actions[0];
      if a.DoExit? {
        ExitTouchesOneFile(c, s0, a.i, a.status, a.stamp);
      } else {
        OnlyExitsTouchFiles(c, s0, a);
      }
      MarksAreKept(c, Apply(c, s0, a), actions[1..], s1);
    }
  }

  lemma AgainFacts(c: Config, s: State, s': State)
    requires WellFormed(c) && Sized(c, s) && AgainAfter(c, s, s')
    ensures TimesOk(c, s.ftime, s') && s'.make == s.make
  {
    var s0, actions :| Initial(c, s0) && s0.ftime == s.ftime && s0.make == s.make && Run(c, s0, actions, s');
    InitialInv(c, s0);
    InitialTimes(c, s0);
    RunKeepsTimes(c, s.ftime, s0, actions, s');
    MarksAreKept(c, s0, actions, s');
  }

  lemma {:induction false} LowestIsStale(c: Config, ft0: seq<int>, s: State, s': State, i: nat) returns (x: Node)
    requires Completed(c, ft0, s) && TimesOk(c, s.ftime, s') && s'.make == s.make && i < |s.order|
    requires s.order[i] < c.size && s.make[s.order[i]] && s.made[s.order[i]].Remade? && !HasCommand(c, s.order[i])
    requires forall x: Node :: x < c.size && s'.make[x] ==> s'.made[x].UpToDate?
    ensures x < c.size && s'.make[x] && Stale(c, s.ftime, s'.made, s'.mtime, x)
    decreases i
  {
    x := s.order[i];
    if y :| y in c.children[x] && y < c.size && s.made[y].Remade? && !HasCommand(c, y) {
      assert y in s.order[..i];
      var j :| 0 <= j < i && s.order[j] == y;
      x := LowestIsStale(c, ft0, s, s', j);
    } else {
      CommandlessIsStaleAgain(c, ft0, s, s', x);
    }
  }

  /** A second run that ends well finds everything up to date exactly if every node that the first
    * run made has a command that is executed. */
  lemma SecondRunDoesNothing(c: Config, ft0: seq<int>, s: State, s': State)
    requires FirstRun(c, ft0, s) && AgainAfter(c, s, s') && CleanEnd(c, s') && s'.numNodes == 0
    ensures (forall x: Node :: x < c.size && s'.make[x] ==> s'.made[x].UpToDate?) <==>
            (forall x: Node :: x < c.size && s.make[x] && s.made[x].Remade? ==> HasCommand(c, x))
  {
    AgainFacts(c, s, s');
    if forall x: Node :: x < c.size && s.make[x] && s.made[x].Remade? ==> HasCommand(c, x) {
      SecondRunIsIdle(c, ft0, s, s');
      forall x: Node | x < c.size && s'.make[x] ensures s'.made[x].UpToDate? {
        MarkedIsExamined(c, s', x);
      }
    } else if forall x: Node :: x < c.size && s'.make[x] ==> s'.made[x].UpToDate? {
      FirstRunCompletes(c, ft0, s);
      var x :| 0 <= x < c.size && s.make[x] && s.made[x].Remade? && !HasCommand(c, x);
      var i :| 0 <= i < |s.order| && s.order[i] == x;
      var y := LowestIsStale(c, ft0, s, s', i);
      MarkedIsExamined(c, s', y);
    }
  }

  lemma MarkedIsExamined(c: Config, s: State, x: Node)
    requires CleanEnd(c, s) && s.numNodes == 0 && x < c.size && s.make[x]
    ensures x in s.order
  {
    CompleteEnd(c, s, x);
    ReachableInv(c, s);
  }
}
