/** Exactly when the scheduler does what its comments rule out, and when its report of a cycle is
  * right.
  */
module Limits {
  import opened Graph
  import opened Scheduler
  import opened Protocol
  import opened JobTable
  import opened Readiness
  import opened Commands
  import opened Times
  import opened Outcome

  // ---------------------------------------------------------- starting jobs

  /** One of the commands from k on is executed. */
  predicate AnyLeft(cmds: seq<Command>, k: nat) {
    exists j :: k <= j < |cmds| && !cmds[j].blank
  }

  /** JobExec enters a job into the table exactly if a command is left, whether or not the engine
    * is aborting. */
  lemma {:induction false} ExecStarts(c: Config, s: State, job: Job)
    requires Shaped(c) && Sized(c, s) && job.node < c.size && s.nJobs < c.maxJobs
    ensures |JobExec(c, s, job).jobs|
         == |s.jobs| + if AnyLeft(c.commands[job.node], NextCommand(s, job)) then 1 else 0
    decreases Unread(c, s, job), 0
  {
    var n, k := job.node, NextCommand(s, job);
    if k >= |c.commands[n]| {
      if !s.aborting { UpdateFrame(c, s.(made := s.made[n := Remade]), n); }
    } else if c.commands[n][k].blank {
      assert AnyLeft(c.commands[n], k) == AnyLeft(c.commands[n], k + 1);
      StartStarts(c, s.(cursor := s.cursor[n := k + 1]), Renew(c, job));
    }
  }

  lemma {:induction false} StartStarts(c: Config, s: State, job: Job)
    requires Shaped(c) && Sized(c, s) && job.node < c.size && s.nJobs < c.maxJobs
    ensures |JobStart(c, s, job).jobs|
         == |s.jobs| + if AnyLeft(c.commands[job.node], NextCommand(s, job)) then 1 else 0
    decreases Unread(c, s, job), 1
  {
    ExecStarts(c, s, job.(remote := s.nLocal >= c.maxLocal));
  }

  lemma JobMakeStarts(c: Config, s: State, n: Node)
    requires Shaped(c) && Sized(c, s) && n < c.size
    ensures |JobMake(c, s, n).jobs| == |s.jobs| + if s.nJobs < c.maxJobs && HasCommand(c, n) then 1 else 0
  {
    var s1 := CheckCommands(c, s, n);
    var job := Job(n, true, false, false, c.attr[n].ignore);
    assert HasCommand(c, n) == AnyLeft(c.commands[n], 0);
    if s.nJobs < c.maxJobs { StartStarts(c, s1, job); }
  }

  /** A turn of MakeStartJobs starts a job exactly if there is room and the head of the queue is not
    * held back, is out of date, and has a command that is executed.  That the engine is aborting
    * makes no difference; it only ends the loop after this turn. */
  lemma ExamineStarts(c: Config, s: State)
    requires Reachable(c, s) && Enabled(s, DoExamine)
    ensures var n, r := s.toBeMade[0], Examine(c, s);
      && (|r.jobs| > |s.jobs| <==>
            s.nJobs < c.maxJobs && !Blocked(c, s, n) && IsOut(c, Seen(c, s), n) && HasCommand(c, n))
      && |r.jobs| <= |s.jobs| + 1
      && (s.aborting && |r.jobs| > |s.jobs| ==> r.mode.Checking?)
  {
    var n, seen := s.toBeMade[0], Seen(c, s);
    if !Blocked(c, s, n) {
      if IsOut(c, seen, n) {
        JobMakeStarts(c, seen, n);
        StartFrame(c, CheckCommands(c, seen, n), Job(n, true, false, false, c.attr[n].ignore));
      } else {
        UpdateFrame(c, PassOver(c, seen, n), n);
      }
    }
  }

  /** When a job ends, another one for the same node takes its place exactly if it ended well and the
    * node has a command left, whether or not the engine is aborting. */
  lemma ExitStarts(c: Config, s: State, i: nat, status: Status, stamp: int)
    requires Reachable(c, s) && Enabled(s, DoExit(i, status, stamp))
    ensures var n, r := s.jobs[i].node, Exit(c, s, i, status, stamp);
      && n < c.size && 1 <= s.cursor[n] <= |c.commands[n]|
      && var well := status.Exited? && (status.code == 0 || c.commands[n][s.cursor[n] - 1].dash || c.attr[n].ignore);
         |r.jobs| == if well && AnyLeft(c.commands[n], s.cursor[n]) then |s.jobs| else |s.jobs| - 1
  {
    TableIsBounded(c, s);
    ReachableInv(c, s);
    CountsExactly(c, s, i, status);
    EndedStarts(c, s, i, status, stamp);
  }

  lemma EndedStarts(c: Config, s: State, i: nat, status: Status, stamp: int)
    requires Shaped(c) && Sized(c, s) && i < |s.jobs| && s.nJobs <= c.maxJobs
    ensures var n, r := s.jobs[i].node, Exit(c, s, i, status, stamp);
      |r.jobs| == if !Counts(status, s.jobs[i]) && AnyLeft(c.commands[n], s.cursor[n]) then |s.jobs| else |s.jobs| - 1
  {
    if !Counts(status, s.jobs[i]) { StartStarts(c, Ended(s, i, status, stamp), Renew(c, s.jobs[i])); }
  }

  // ------------------------------------------------------ the cycle report

  /** The count of nodes at the end tells whether there is a cycle, and without one everything is
    * settled. */
  ghost predicate Reports(c: Config, s: State)
    requires Shaped(c) && Sized(c, s)
  {
    && (s.numNodes != 0 <==> Cyclic(c, s.make))
    && (s.numNodes == 0 ==> forall x :: 0 <= x < c.size && s.make[x] ==> Settled(s.made[x]))
  }

  /** At the end of a run without an error the report is right exactly if no node was refused or
    * there is a cycle. */
  lemma ReportIsRight(c: Config, s: State)
    requires Reachable(c, s) && s.mode.Finished? && s.errors == 0
    ensures Reports(c, s) <==> s.refused == [] || Cyclic(c, s.make)
  {
    ReachableInv(c, s);
    if s.refused == [] {
      CycleTheorem(c, s);
    } else {
      var x := s.refused[0];
      GivenUpIsUnsettled(c, s, x);
      assert s.make[x];
      if Cyclic(c, s.make) {
        CycleMeansStuck(c, s);
        SizeOfDistinct(s.order, Marked(s.make));
      }
    }
  }

  // ------------------------------------------------------- refusing nodes

  /** The node is not a target, has no commands and no file, and is not optional. */
  predicate Hopeless(c: Config, ft: seq<int>, x: Node)
    requires Shaped(c) && x < c.size == |ft|
  {
    c.attr[x].Nop() && c.commands[x] == [] && ft[x] == 0 && !c.attr[x].optional
  }

  /** No marked node is hopeless. */
  ghost predicate Acceptable(c: Config, make: seq<bool>, ft: seq<int>)
    requires Shaped(c) && |make| == |ft| == c.size
  {
    forall x :: 0 <= x < c.size && make[x] ==> !Hopeless(c, ft, x)
  }

  /** The nodes without commands still have the files that they had, and a hopeless node that has been
    * examined was refused or was found up to date; but for the nodes in `out`. */
  ghost predicate Refusing(c: Config, ft0: seq<int>, s: State, out: set<Node>)
    requires Shaped(c) && Sized(c, s) && |ft0| == c.size
  {
    && (forall x :: 0 <= x < c.size && c.commands[x] == [] ==> s.ftime[x] == ft0[x])
    && (forall x :: x in s.refused ==> x < c.size && Hopeless(c, ft0, x))
    && (forall x :: x in s.order && x < c.size && Hopeless(c, ft0, x) && x !in out ==>
          x in s.refused || s.made[x].UpToDate?)
    && (s.mode.Dead? ==> s.refused != [])
  }

  lemma {:induction false} ExecMakesOne(c: Config, s: State, job: Job)
    requires Shaped(c) && Sized(c, s) && job.node < c.size
    ensures JobExec(c, s, job).made == s.made[job.node := JobExec(c, s, job).made[job.node]]
    decreases Unread(c, s, job), 0
  {
    var n, k := job.node, NextCommand(s, job);
    if k >= |c.commands[n]| {
      if !s.aborting { UpdateFrame(c, s.(made := s.made[n := Remade]), n); }
    } else if c.commands[n][k].blank {
      StartMakesOne(c, s.(cursor := s.cursor[n := k + 1]), Renew(c, job));
    }
  }

  lemma {:induction false} StartMakesOne(c: Config, s: State, job: Job)
    requires Shaped(c) && Sized(c, s) && job.node < c.size
    ensures JobStart(c, s, job).made == s.made[job.node := JobStart(c, s, job).made[job.node]]
    decreases Unread(c, s, job), 1
  {
    if s.nJobs < c.maxJobs { ExecMakesOne(c, s, job.(remote := s.nLocal >= c.maxLocal)); }
  }

  lemma JobMakeRefuses(c: Config, ft0: seq<int>, s: State, n: Node)
    requires Shaped(c) && Sized(c, s) && n < c.size && |ft0| == c.size && Refusing(c, ft0, s, {n})
    ensures Refusing(c, ft0, JobMake(c, s, n), {}) && JobMake(c, s, n).make == s.make
  {
    var job := Job(n, true, false, false, c.attr[n].ignore);
    StartFrame(c, CheckCommands(c, s, n), job);
    StartMakesOne(c, CheckCommands(c, s, n), job);
  }

  lemma SeenRefuses(c: Config, ft0: seq<int>, s: State)
    requires Shaped(c) && Sized(c, s) && s.toBeMade != [] && s.toBeMade[0] !in s.order
    requires |ft0| == c.size && Refusing(c, ft0, s, {})
    ensures Refusing(c, ft0, Seen(c, s), {s.toBeMade[0]}) && Seen(c, s).make == s.make
  {
  }

  lemma PassOverRefuses(c: Config, ft0: seq<int>, s: State, n: Node)
    requires Shaped(c) && Sized(c, s) && n < c.size && |ft0| == c.size && Refusing(c, ft0, s, {n})
    ensures var r := MakeUpdate(c, PassOver(c, s, n), n); Refusing(c, ft0, r, {}) && r.make == s.make
  {
    UpdateFrame(c, PassOver(c, s, n), n);
  }

  lemma ExamineRefuses(c: Config, ft0: seq<int>, s: State)
    requires Shaped(c) && Sized(c, s) && s.toBeMade != [] && s.toBeMade[0] !in s.order
    requires |ft0| == c.size && Refusing(c, ft0, s, {})
    ensures Refusing(c, ft0, Examine(c, s), {}) && Examine(c, s).make == s.make
  {
    var n := s.toBeMade[0];
    if !Blocked(c, s, n) {
      SeenRefuses(c, ft0, s);
      if IsOut(c, Seen(c, s), n) {
        JobMakeRefuses(c, ft0, Seen(c, s), n);
      } else {
        PassOverRefuses(c, ft0, Seen(c, s), n);
      }
    }
  }

  lemma ExitRefuses(c: Config, ft0: seq<int>, s: State, i: nat, status: Status, stamp: int)
    requires Shaped(c) && Sized(c, s) && i < |s.jobs| && |ft0| == c.size
    requires Refusing(c, ft0, s, {}) && c.commands[s.jobs[i].node] != []
    ensures Refusing(c, ft0, Exit(c, s, i, status, stamp), {}) && Exit(c, s, i, status, stamp).make == s.make
  {
    StartFrame(c, Ended(s, i, status, stamp), Renew(c, s.jobs[i]));
    StartMakesOne(c, Ended(s, i, status, stamp), Renew(c, s.jobs[i]));
  }

  lemma ExecRefuses(c: Config, ft0: seq<int>, s: State, job: Job)
    requires Shaped(c) && Sized(c, s) && job.node < c.size && |ft0| == c.size
    requires Refusing(c, ft0, s, {}) && !s.made[job.node].UpToDate?
    ensures Refusing(c, ft0, JobExec(c, s, job), {}) && JobExec(c, s, job).make == s.make
  {
    ExecFrame(c, s, job);
    ExecMakesOne(c, s, job);
  }

  lemma RestartRefuses(c: Config, ft0: seq<int>, s: State)
    requires Shaped(c) && Sized(c, s) && s.held != [] && |ft0| == c.size
    requires Refusing(c, ft0, s, {}) && !s.made[s.held[0].node].UpToDate?
    ensures Refusing(c, ft0, JobRestart(c, s), {}) && JobRestart(c, s).make == s.make
  {
    ExecRefuses(c, ft0, s.(held := s.held[1..]), s.held[0].(remote := s.nLocal >= c.maxLocal));
  }

  lemma StepRefuses(c: Config, ft0: seq<int>, s: State, a: Action)
    requires Inv(c, s) && Enabled(s, a) && |ft0| == c.size && Refusing(c, ft0, s, {})
    ensures Refusing(c, ft0, Apply(c, s, a), {}) && Apply(c, s, a).make == s.make
  {
    if a.DoExamine? {
      QueueHead(c, s);
      ExamineRefuses(c, ft0, s);
    } else if a.Restart? {
      HeldNode(c, s);
      RestartRefuses(c, ft0, s);
    } else if a.DoExit? {
      assert RunsCommand(c, s.cursor, s.jobs[a.i]);
      ExitRefuses(c, ft0, s, a.i, a.status, a.stamp);
    }
  }

  lemma {:induction false} RunRefuses(c: Config, ft0: seq<int>, s0: State, actions: seq<Action>, s: State)
    requires Inv(c, s0) && Run(c, s0, actions, s) && |ft0| == c.size && Refusing(c, ft0, s0, {})
    ensures Sized(c, s) && Refusing(c, ft0, s, {}) && s.make == s0.make
    decreases |actions|
  {
    if actions != [] {
      StepKeeps(c, s0, actions[0]);
      StepRefuses(c, ft0, s0, actions[0]);
      RunRefuses(c, ft0, Apply(c, s0, actions[0]), actions[1..], s);
    }
  }

  lemma {:induction false} NewestIsNat(c: Config, made: seq<Made>, mtime: seq<int>, kids: seq<Node>)
    requires Shaped(c) && |made| == |mtime| == c.size && Within(kids, c.size)
    ensures Newest(c, made, mtime, kids) >= 0
  {
    if kids != [] {
      assert Within(kids[1..], c.size);
      NewestIsNat(c, made, mtime, kids[1..]);
    }
  }

  /** A hopeless node is out of date, unless it is a .JOIN node of whose children none was remade. */
  lemma HopelessIsStale(c: Config, ft0: seq<int>, made: seq<Made>, mtime: seq<int>, x: Node)
    requires Shaped(c) && |made| == |mtime| == |ft0| == c.size && x < c.size && Hopeless(c, ft0, x)
    ensures Stale(c, ft0, made, mtime, x) <==> (c.attr[x].join ==> AnyRemade(c, made, c.children[x]))
  {
    NewestIsNat(c, made, mtime, c.children[x]);
  }

  /** The node has to be refused when it is examined: it is hopeless, and not a .JOIN node of whose
    * children none was remade. */
  predicate IsLost(c: Config, ft0: seq<int>, made: seq<Made>, x: Node)
    requires Shaped(c) && x < c.size == |ft0| == |made|
  {
    Hopeless(c, ft0, x) && (c.attr[x].join ==> AnyRemade(c, made, c.children[x]))
  }

  /** At every moment the refused nodes are those that have been examined and had to be refused; and the
    * early exit is taken only for one of them. */
  lemma RefusedExactlyWhen(c: Config, s0: State, actions: seq<Action>, s: State)
    requires Initial(c, s0) && Run(c, s0, actions, s)
    ensures Sized(c, s) && s.make == s0.make
    ensures forall x: Node :: x in s.refused <==> x < c.size && x in s.order && IsLost(c, s0.ftime, s.made, x)
    ensures s.mode.Dead? ==> s.refused != []
  {
    InitialInv(c, s0);
    InitialTimes(c, s0);
    RunKeepsTimes(c, s0.ftime, s0, actions, s);
    RunRefuses(c, s0.ftime, s0, actions, s);
    assert Reachable(c, s);
    forall x: Node
      ensures x in s.refused <==> x < c.size && x in s.order && IsLost(c, s0.ftime, s.made, x)
    {
      if x in s.refused { GivenUpIsUnsettled(c, s, x); }
      if x < c.size && Hopeless(c, s0.ftime, x) { HopelessIsStale(c, s0.ftime, s.made, s.mtime, x); }
    }
  }

  /** No marked node has to be refused. */
  ghost predicate NoneLost(c: Config, ft0: seq<int>, s: State)
    requires Shaped(c) && Sized(c, s) && |ft0| == c.size
  {
    forall x :: 0 <= x < c.size && s.make[x] ==> !IsLost(c, ft0, s.made, x)
  }

  lemma ExaminedAreMarked(c: Config, s: State)
    requires Reachable(c, s)
    ensures forall x :: x in s.order ==> x < c.size && s.make[x]
  {
    ReachableInv(c, s);
  }

  lemma AllSettledAreExamined(c: Config, s: State)
    requires Reachable(c, s) && forall x :: 0 <= x < c.size && s.make[x] ==> Settled(s.made[x])
    ensures forall x: Node :: x < c.size && s.make[x] ==> x in s.order
  {
    forall x: Node | x < c.size && s.make[x] ensures x in s.order {
      OneFate(c, s, x);
    }
  }

  /** The report at the end of a run without an error is right exactly if there is a cycle, or no marked
    * node has to be refused.  Unless a hopeless node is a .JOIN node, the graph and the files at the
    * start decide. */
  lemma ReportIsRightFor(c: Config, s0: State, actions: seq<Action>, s: State)
    requires Initial(c, s0) && Run(c, s0, actions, s) && s.mode.Finished? && s.errors == 0
    ensures Sized(c, s) && (Reports(c, s) <==> NoneLost(c, s0.ftime, s) || Cyclic(c, s0.make))
    ensures (forall x :: 0 <= x < c.size && s0.make[x] && c.attr[x].join ==> !Hopeless(c, s0.ftime, x)) ==>
      (Reports(c, s) <==> Acceptable(c, s0.make, s0.ftime) || Cyclic(c, s0.make))
  {
    assert s.refused == [] || s.refused[0] in s.refused;
    RefusedExactlyWhen(c, s0, actions, s);
    assert Reachable(c, s);
    ReportIsRight(c, s);
    if NoneLost(c, s0.ftime, s) {
      ExaminedAreMarked(c, s);
    } else if Reports(c, s) && !Cyclic(c, s.make) {
      AllSettledAreExamined(c, s);
    }
    JoinsAside(c, s0.ftime, s);
  }

  lemma JoinsAside(c: Config, ft0: seq<int>, s: State)
    requires Shaped(c) && Sized(c, s) && |ft0| == c.size
    ensures (forall x :: 0 <= x < c.size && s.make[x] && c.attr[x].join ==> !Hopeless(c, ft0, x)) ==>
      (NoneLost(c, ft0, s) <==> Acceptable(c, s.make, ft0))
  {
    if Acceptable(c, s.make, ft0) {
      forall x | 0 <= x < c.size && s.make[x] ensures !IsLost(c, ft0, s.made, x) {}
    } else {
      var x :| 0 <= x < c.size && s.make[x] && Hopeless(c, ft0, x);
      assert !c.attr[x].join ==> IsLost(c, ft0, s.made, x);
    }
  }

  /** If no marked node is hopeless then no run refuses a node or exits early, so that its report at the
    * end is right.  At the end of a run without an error and without a cycle, none was refused exactly
    * if none had to be. */
  lemma NothingIsRefused(c: Config, s0: State, actions: seq<Action>, s: State)
    requires Initial(c, s0) && Run(c, s0, actions, s)
    ensures Acceptable(c, s0.make, s0.ftime) ==> s.refused == [] && !s.mode.Dead?
    ensures Sized(c, s) && s.make == s0.make
    ensures s.mode.Finished? && s.errors == 0 && Acceptable(c, s0.make, s0.ftime) ==>
      (s.numNodes != 0 <==> Cyclic(c, s0.make))
    ensures s.mode.Finished? && s.errors == 0 && !Cyclic(c, s0.make) ==>
      (s.refused == [] <==> NoneLost(c, s0.ftime, s))
  {
    assert s.refused == [] || s.refused[0] in s.refused;
    RefusedExactlyWhen(c, s0, actions, s);
    assert Reachable(c, s);
    ExaminedAreMarked(c, s);
    if s.mode.Finished? && s.errors == 0 {
      ReportIsRight(c, s);
      ReportIsRightFor(c, s0, actions, s);
    }
  }
}
