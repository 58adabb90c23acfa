/** Runs in which the scheduler does not do what its comments say; Limits says exactly when. */
module Mishaps {
  import opened Graph
  import opened Scheduler
  import opened Protocol
  import opened JobTable
  import opened Readiness
  import opened Commands
  import opened Times
  import opened Outcome
  import opened SecondRun

  const TARGET := Attr(true, false, false, false, false, false, false)
  const SOURCE := Attr(false, false, false, false, false, false, false)
  const RUN := Command(false, false)

  // ------------------------------------------ -k and a node that cannot be made

  /** With -k, a source that does not exist and a target that is out of date. */
  const LONE := Config(2, [[], []], [[], []], [[], []], [[], []], [SOURCE, TARGET], [[], [RUN]], 1, 1, true, 1)

  const LONE_0 := State([true, true], [Unmade, Unmade], [0, 0], [false, false], [0, 0], [0, 0], [0, 0], [0, 0],
    [0, 1], 2, [], [], 0, 0, false, 0, false, Filling, [], [], [], [])

  const LONE_1 := LONE_0.(toBeMade := [1], numNodes := 1, order := [0], refused := [0], mode := Checking)

  /** The source is refused, and MakeStartJobs returns at once. */
  lemma SourceIsRefused()
    ensures Sized(LONE, LONE_0) && Shaped(LONE) && Examine(LONE, LONE_0) == LONE_1
  {
    assert [0, 1][1..] == [1];
    assert !Blocked(LONE, LONE_0, 0);
    var seen := Seen(LONE, LONE_0);
    assert seen == LONE_0.(toBeMade := [1], numNodes := 1, order := [0]);
    assert IsOut(LONE, seen, 0);
  }

  lemma LoneIsInitial()
    ensures Initial(LONE, LONE_0)
  {
    assert Marked(LONE_0.make) == {0, 1};
    assert WellFormed(LONE);
  }

  lemma CycleHasAnEdge(c: Config, make: seq<bool>)
    requires Shaped(c) && |make| == c.size && Cyclic(c, make)
    ensures exists x, y :: Awaits(c, make, x, y)
  {
    var p :| |p| >= 2 && Walk(c, make, p) && p[0] == p[|p| - 1];
    assert Awaits(c, make, p[0], p[1]);
  }

  lemma LoneHasNoCycle(make: seq<bool>)
    requires |make| == 2
    ensures Shaped(LONE) && !Cyclic(LONE, make)
  {
    if Cyclic(LONE, make) { CycleHasAnEdge(LONE, make); }
  }

  lemma StepIsReachable(c: Config, s: State, a: Action, r: State)
    requires Reachable(c, s) && Enabled(s, a) && r == Apply(c, s, a)
    ensures Reachable(c, r)
  {
    var s0, actions :| Initial(c, s0) && Run(c, s0, actions, s);
    RunAppend(c, s0, actions, s, a);
  }

  lemma InitialIsReachable(c: Config, s: State)
    requires Initial(c, s)
    ensures Reachable(c, s)
  {
    assert Run(c, s, [], s);
  }

  /** The end of the main loop. */
  const LONE_2 := LONE_1.(mode := Finished)

  lemma LoneEnds()
    ensures Reachable(LONE, LONE_2)
  {
    LoneIsInitial();
    InitialIsReachable(LONE, LONE_0);
    SourceIsRefused();
    StepIsReachable(LONE, LONE_0, DoExamine, LONE_1);
    StepIsReachable(LONE, LONE_1, Check, LONE_2);
  }

  /** With -k, Make_Run ends without an error and without a cycle, yet a target has never been
    * looked at, although nothing it needs is missing. */
  lemma KeepGoingGivesUpEarly()
    ensures Reachable(LONE, LONE_2) && LONE_2.mode.Finished? && LONE_2.errors == 0
    ensures LONE_2.numNodes == 1 && !Cyclic(LONE, LONE_2.make)
    ensures LONE_2.make[0] && LONE_2.refused == [0] && LONE_2.made[0].Unmade? && LONE_2.unmade[0] == 0
    ensures LONE_2.jobs == LONE_2.held == [] && LONE_2.abandoned == [] && LONE.preds[0] == []
    ensures LONE_2.make[1] && LONE.children[1] == LONE.preds[1] == [] && 1 !in LONE_2.order && LONE_2.toBeMade == [1]
  {
    LoneEnds();
    LoneHasNoCycle(LONE_2.make);
  }

  /** The head of the queue is stale and its first command is to be executed. */
  lemma HeadIsLaunched(c: Config, s: State)
    requires Shaped(c) && Sized(c, s) && s.toBeMade != []
    requires var n := s.toBeMade[0];
      && !Blocked(c, s, n) && IsOut(c, Seen(c, s), n)
      && c.commands[n] != [] && !c.commands[n][0].blank && s.nJobs < c.maxJobs
    ensures var n, seen := s.toBeMade[0], Seen(c, s);
      var job := Job(n, true, false, s.nLocal >= c.maxLocal, c.attr[n].ignore || c.commands[n][0].dash);
      var r := Launch(c, seen.(cursor := seen.cursor[n := 1]), job);
      Examine(c, s) == if s.aborting then r.(mode := Checking) else r
  {
    var n, seen := s.toBeMade[0], Seen(c, s);
    var job := Job(n, true, false, false, c.attr[n].ignore);
    assert Examine(c, s) == JobMake(c, seen, n);
    assert CheckCommands(c, seen, n) == seen && !Unmakeable(c, seen, n);
    assert JobStart(c, seen, job) == JobExec(c, seen, job.(remote := s.nLocal >= c.maxLocal));
  }

  // ------------------------------------------------------- .ORDER and -k

  /** Two targets with a command each; 0 is to be made before 1.  With -k, one job at a time. */
  const PAIR := Config(2, [[], []], [[], []], [[], [0]], [[1], []], [TARGET, TARGET], [[RUN], [RUN]], 1, 1, true, 1)

  const PAIR_0 := State([true, true], [Unmade, Unmade], [0, 0], [false, false], [0, 0], [0, 0], [0, 0], [0, 0],
    [1, 0], 2, [], [], 0, 0, false, 0, false, Filling, [], [], [], [])

  /** 1 has been put aside. */
  const PAIR_1 := PAIR_0.(toBeMade := [0])

  /** 0 is running. */
  const PAIR_2 := PAIR_1.(toBeMade := [], numNodes := 1, order := [0], cursor := [1, 0],
    jobs := [Job(0, true, false, false, false)], nJobs := 1, nLocal := 1, jobFull := true)

  /** 0 has failed. */
  const PAIR_3 := PAIR_2.(jobs := [], nJobs := 0, nLocal := 0, jobFull := false, made := [Failed, Unmade],
    errors := 1, log := [Ran(0, 1, Exited(1))], mode := Catching)

  lemma PairIsWellFormed()
    ensures WellFormed(PAIR)
  {
    assert PAIR.preds[1][0] == 0 && PAIR.successors[0][0] == 1;
  }

  lemma PairIsInitial()
    ensures Initial(PAIR, PAIR_0)
  {
    PairIsWellFormed();
    assert Marked(PAIR_0.make) == {0, 1};
  }

  lemma PairDrops()
    ensures Shaped(PAIR) && Sized(PAIR, PAIR_0) && Apply(PAIR, PAIR_0, DoExamine) == PAIR_1
  {
    assert PAIR_0.toBeMade[1..] == [0];
    assert PAIR.preds[1][0] == 0;
    assert Blocked(PAIR, PAIR_0, 1);
  }

  lemma PairStarts()
    ensures Shaped(PAIR) && Sized(PAIR, PAIR_1) && Apply(PAIR, PAIR_1, DoExamine) == PAIR_2
  {
    assert PAIR_1.toBeMade[1..] == [];
    HeadIsLaunched(PAIR, PAIR_1);
  }

  lemma PairFails()
    ensures Shaped(PAIR) && Sized(PAIR, PAIR_2)
    ensures Apply(PAIR, PAIR_2.(mode := Catching), DoExit(0, Exited(1), 0)) == PAIR_3
  {
    var s := PAIR_2.(mode := Catching);
    assert Ended(s, 0, Exited(1), 0) == s.(jobs := [], nJobs := 0, nLocal := 0, jobFull := false, log := [Ran(0, 1, Exited(1))]);
  }

  lemma PairRuns()
    ensures Reachable(PAIR, PAIR_2.(mode := Catching))
  {
    PairIsInitial();
    InitialIsReachable(PAIR, PAIR_0);
    PairDrops();
    StepIsReachable(PAIR, PAIR_0, DoExamine, PAIR_1);
    PairStarts();
    StepIsReachable(PAIR, PAIR_1, DoExamine, PAIR_2);
    StepIsReachable(PAIR, PAIR_2, EndFilling, PAIR_2.(mode := Checking));
    StepIsReachable(PAIR, PAIR_2.(mode := Checking), Check, PAIR_2.(mode := Catching));
  }

  lemma PairEnds()
    ensures Reachable(PAIR, PAIR_3)
  {
    PairRuns();
    PairFails();
    StepIsReachable(PAIR, PAIR_2.(mode := Catching), DoExit(0, Exited(1), 0), PAIR_3);
  }

  /** With -k, a target that waits for a failed .ORDER predecessor is ready, but neither queued nor
    * running nor waiting for anything that is still to be made. */
  lemma WakeUpCanBeLost()
    ensures Reachable(PAIR, PAIR_3) && PAIR_3.jobs == PAIR_3.held == [] && PAIR_3.toBeMade == []
    ensures PAIR_3.make[1] && PAIR_3.made[1].Unmade? && PAIR_3.unmade[1] == 0 && 1 !in PAIR_3.order
    ensures PAIR.preds[1] == [0] && PAIR_3.made[0].Failed? && Stranded(PAIR, PAIR_3, 1)
  {
    PairEnds();
  }

  // ------------------------------------------------ starting during an abort

  /** 2 depends on 0; 0 and 1 can run together.  Without -k. */
  const TRIO := Config(3, [[], [], [0]], [[2], [], []], [[], [], []], [[], [], []], [TARGET, TARGET, TARGET],
    [[RUN], [RUN], [RUN]], 2, 2, false, 1)

  const TRIO_0 := State([true, true, true], [Unmade, Unmade, Unmade], [0, 0, 1], [false, false, false],
    [0, 0, 0], [0, 0, 0], [0, 0, 0], [0, 0, 0],
    [0, 1], 3, [], [], 0, 0, false, 0, false, Filling, [], [], [], [])

  /** 0 is running. */
  const TRIO_1 := TRIO_0.(toBeMade := [1], numNodes := 2, order := [0], cursor := [1, 0, 0],
    jobs := [Job(0, true, false, false, false)], nJobs := 1, nLocal := 1)

  /** 1 is running, too. */
  const TRIO_2 := TRIO_1.(toBeMade := [], numNodes := 1, order := [0, 1], cursor := [1, 1, 0],
    jobs := [Job(0, true, false, false, false), Job(1, true, false, false, false)], nJobs := 2, nLocal := 2, jobFull := true)

  /** 0 has ended. */
  const TRIO_3 := TRIO_2.(jobs := [Job(1, true, false, false, false)], nJobs := 1, nLocal := 1, jobFull := false,
    ftime := [7, 0, 0], log := [Ran(0, 1, Exited(0))], mode := Catching)

  /** 0 has been made. */
  const TRIO_4 := TRIO_3.(made := [Remade, Unmade, Unmade], unmade := [0, 0, 0], childMade := [false, false, true],
    mtime := [7, 0, 0], cmtime := [0, 0, 7], toBeMade := [2])

  /** 1 has failed. */
  const TRIO_5 := TRIO_4.(jobs := [], nJobs := 0, nLocal := 0, made := [Remade, Failed, Unmade], errors := 1, aborting := true,
    log := [Ran(0, 1, Exited(0)), Ran(1, 1, Exited(1))])

  lemma TrioIsWellFormed()
    ensures WellFormed(TRIO)
  {
    assert TRIO.children[2][0] == 0 && TRIO.parents[0][0] == 2;
  }

  lemma TrioIsInitial()
    ensures Initial(TRIO, TRIO_0)
  {
    TrioIsWellFormed();
    assert Marked(TRIO_0.make) == {0, 1, 2};
    assert TRIO_0.toBeMade[0] == 0 && TRIO_0.toBeMade[1] == 1;
  }

  lemma TrioStarts0()
    ensures Shaped(TRIO) && Sized(TRIO, TRIO_0) && Apply(TRIO, TRIO_0, DoExamine) == TRIO_1
  {
    assert TRIO_0.toBeMade[1..] == [1];
    HeadIsLaunched(TRIO, TRIO_0);
  }

  lemma TrioStarts1()
    ensures Shaped(TRIO) && Sized(TRIO, TRIO_1) && Apply(TRIO, TRIO_1, DoExamine) == TRIO_2
  {
    assert TRIO_1.toBeMade[1..] == [];
    HeadIsLaunched(TRIO, TRIO_1);
  }

  lemma TrioTells2()
    ensures var s := TRIO_3.(made := [Remade, Unmade, Unmade], mtime := [7, 0, 0]);
      Shaped(TRIO) && Sized(TRIO, s) && UpdateParents(TRIO, s, 0, TRIO.parents[0]) == TRIO_4
  {
    var s := TRIO_3.(made := [Remade, Unmade, Unmade], mtime := [7, 0, 0]);
    assert TRIO.parents[0][1..] == [];
    assert UpdateParent(TRIO, s, 0, 2) == TRIO_4;
  }

  lemma TrioRechecks0()
    ensures Shaped(TRIO) && Sized(TRIO, TRIO_3)
    ensures var s := TRIO_3.(made := [Remade, Unmade, Unmade]);
      Sized(TRIO, s) && Recheck(TRIO, s, 0) == s.(mtime := [7, 0, 0])
  {
  }

  lemma TrioSettles0()
    ensures Shaped(TRIO) && Sized(TRIO, TRIO_3) && Complete(TRIO, TRIO_3, 0) == TRIO_4
  {
    assert TRIO_3.made[0 := Remade] == [Remade, Unmade, Unmade];
    TrioUpdates0();
  }

  lemma TrioUpdates0()
    ensures var s := TRIO_3.(made := [Remade, Unmade, Unmade]);
      Shaped(TRIO) && Sized(TRIO, s) && MakeUpdate(TRIO, s, 0) == TRIO_4
  {
    TrioRechecks0();
    TrioTells2();
    assert WakeSuccessors(TRIO, TRIO_4, TRIO.successors[0]) == TRIO_4;
  }

  lemma TrioEnds0()
    ensures Ended(TRIO_2.(mode := Catching), 0, Exited(0), 7) == TRIO_3
  {
    var s := TRIO_2.(mode := Catching);
    assert s.jobs[..0] + s.jobs[1..] == [Job(1, true, false, false, false)];
  }

  lemma TrioMakes0()
    ensures Shaped(TRIO) && Sized(TRIO, TRIO_2)
    ensures Apply(TRIO, TRIO_2.(mode := Catching), DoExit(0, Exited(0), 7)) == TRIO_4
  {
    TrioEnds0();
    TrioSettles0();
    ExecAtEnd(TRIO, TRIO_3, Job(0, false, false, false, false));
  }

  /** A job that has read all its commands is complete. */
  lemma ExecAtEnd(c: Config, s: State, job: Job)
    requires Shaped(c) && Sized(c, s) && job.node < c.size && !job.first
    requires s.nJobs < c.maxJobs && s.cursor[job.node] >= |c.commands[job.node]|
    ensures JobStart(c, s, job) == Complete(c, s, job.node)
  {
  }

  lemma TrioFails1()
    ensures Shaped(TRIO) && Sized(TRIO, TRIO_4) && Apply(TRIO, TRIO_4, DoExit(0, Exited(1), 0)) == TRIO_5
  {
    assert Ended(TRIO_4, 0, Exited(1), 0) ==
      TRIO_4.(jobs := [], nJobs := 0, nLocal := 0, log := [Ran(0, 1, Exited(0)), Ran(1, 1, Exited(1))]);
  }

  lemma AbortIsReachable()
    ensures Reachable(TRIO, TRIO_5.(mode := Filling))
  {
    TrioRuns();
    TrioMakes0();
    StepIsReachable(TRIO, TRIO_2.(mode := Catching), DoExit(0, Exited(0), 7), TRIO_4);
    TrioFails1();
    StepIsReachable(TRIO, TRIO_4, DoExit(0, Exited(1), 0), TRIO_5);
    StepIsReachable(TRIO, TRIO_5, EndCatching, TRIO_5.(mode := Filling));
  }

  /** Without -k, a job is started after a failure has set the abort flag. */
  lemma JobStartsDuringAbort()
    ensures exists s ::
      && Reachable(TRIO, s) && s.aborting && s.jobs == [] && Enabled(s, DoExamine)
      && |Apply(TRIO, s, DoExamine).jobs| == 1 && Apply(TRIO, s, DoExamine).jobs[0].node == 2
  {
    AbortIsReachable();
    HeadIsLaunched(TRIO, TRIO_5.(mode := Filling));
  }

  // ----------------------------------------- ending well during an abort

  /** 0 has failed while 1 was running. */
  const TRIO_6 := TRIO_2.(jobs := [Job(1, true, false, false, false)], nJobs := 1, nLocal := 1, jobFull := false,
    made := [Failed, Unmade, Unmade], errors := 1, aborting := true, log := [Ran(0, 1, Exited(1))], mode := Catching)

  /** 1 has ended well. */
  const TRIO_7 := TRIO_6.(jobs := [], nJobs := 0, nLocal := 0, ftime := [0, 7, 0],
    log := [Ran(0, 1, Exited(1)), Ran(1, 1, Exited(0))], abandoned := [1])

  lemma TrioFails0()
    ensures Shaped(TRIO) && Sized(TRIO, TRIO_2)
    ensures Apply(TRIO, TRIO_2.(mode := Catching), DoExit(0, Exited(1), 0)) == TRIO_6
  {
    var s := TRIO_2.(mode := Catching);
    assert s.jobs[..0] + s.jobs[1..] == [Job(1, true, false, false, false)];
    assert Ended(s, 0, Exited(1), 0) == s.(jobs := [Job(1, true, false, false, false)], nJobs := 1, nLocal := 1,
      jobFull := false, log := [Ran(0, 1, Exited(1))]);
  }

  lemma TrioEnds1()
    ensures Ended(TRIO_6, 0, Exited(0), 7) == TRIO_7.(abandoned := [])
  {
  }

  lemma TrioGivesUp1()
    ensures Shaped(TRIO) && Sized(TRIO, TRIO_7.(abandoned := []))
    ensures JobStart(TRIO, TRIO_7.(abandoned := []), Job(1, false, false, false, false)) == TRIO_7
  {
    ExecAtEnd(TRIO, TRIO_7.(abandoned := []), Job(1, false, false, false, false));
  }

  lemma TrioAbandons1()
    ensures Shaped(TRIO) && Sized(TRIO, TRIO_6) && Apply(TRIO, TRIO_6, DoExit(0, Exited(0), 7)) == TRIO_7
  {
    TrioEnds1();
    TrioGivesUp1();
  }

  lemma TrioRuns()
    ensures Reachable(TRIO, TRIO_2.(mode := Catching))
  {
    TrioIsInitial();
    InitialIsReachable(TRIO, TRIO_0);
    TrioStarts0();
    StepIsReachable(TRIO, TRIO_0, DoExamine, TRIO_1);
    TrioStarts1();
    StepIsReachable(TRIO, TRIO_1, DoExamine, TRIO_2);
    StepIsReachable(TRIO, TRIO_2, EndFilling, TRIO_2.(mode := Checking));
    StepIsReachable(TRIO, TRIO_2.(mode := Checking), Check, TRIO_2.(mode := Catching));
  }

  /** A node whose job ends well during an abort is given up: it is neither queued nor running nor
    * held, and waits for nothing, but is not settled. */
  lemma GivenUpDuringAbort()
    ensures Reachable(TRIO, TRIO_7) && TRIO_7.abandoned == [1] && TRIO_7.make[1]
    ensures TRIO_7.made[1].Unmade? && TRIO_7.unmade[1] == 0
    ensures TRIO_7.jobs == TRIO_7.held == [] && TRIO_7.refused == TRIO_7.toBeMade == [] && TRIO.preds[1] == []
  {
    AbandonIsReachable();
  }

  lemma FailureIsReachable()
    ensures Reachable(TRIO, TRIO_6)
  {
    TrioRuns();
    TrioFails0();
    StepIsReachable(TRIO, TRIO_2.(mode := Catching), DoExit(0, Exited(1), 0), TRIO_6);
  }

  lemma AbandonIsReachable()
    ensures Reachable(TRIO, TRIO_7)
  {
    FailureIsReachable();
    TrioAbandons1();
    StepIsReachable(TRIO, TRIO_6, DoExit(0, Exited(0), 7), TRIO_7);
  }

  // --------------------------------------- a second run that is not idle

  /** One ':' target without commands and without a file. */
  const ONE := Config(1, [[]], [[]], [[]], [[]], [TARGET], [[]], 1, 1, false, 1)

  const ONE_0 := State([true], [Unmade], [0], [false], [0], [0], [0], [0],
    [0], 1, [], [], 0, 0, false, 0, false, Filling, [], [], [], [])

  /** It has been examined, and for want of a command it is made at once. */
  const ONE_1 := ONE_0.(toBeMade := [], numNodes := 0, order := [0], made := [Remade], mtime := [1])

  lemma OneIsInitial()
    ensures Initial(ONE, ONE_0)
  {
    assert WellFormed(ONE);
    assert Marked(ONE_0.make) == {0};
    assert ONE_0.toBeMade[0] == 0;
  }

  lemma OneIsMade()
    ensures Shaped(ONE) && Sized(ONE, ONE_0) && Apply(ONE, ONE_0, DoExamine) == ONE_1
  {
    assert ONE_0.toBeMade[1..] == [];
    assert !Blocked(ONE, ONE_0, 0);
    var seen := Seen(ONE, ONE_0);
    assert seen == ONE_0.(toBeMade := [], numNodes := 0, order := [0]);
    assert CheckCommands(ONE, seen, 0) == seen && !Unmakeable(ONE, seen, 0);
    assert JobStart(ONE, seen, Job(0, true, false, false, false)) == Complete(ONE, seen, 0);
  }

  const ONE_2 := ONE_1.(mode := Finished)

  lemma OneEnds()
    ensures Shaped(ONE) && Sized(ONE, ONE_0)
    ensures Run(ONE, ONE_0, [DoExamine, EndFilling, Check], ONE_2)
    ensures Clocked(ONE, ONE_0, [DoExamine, EndFilling, Check], 1)
  {
    OneIsMade();
    var actions := [DoExamine, EndFilling, Check];
    assert actions[1..] == [EndFilling, Check] && actions[1..][1..] == [Check] && actions[1..][1..][1..] == [];
  }

  /** A target that was made without a command being executed is made again by the second run, so
    * the condition of SecondRunDoesNothing is not idle. */
  lemma MadeAgain()
    ensures FirstRun(ONE, [0], ONE_2) && AgainAfter(ONE, ONE_2, ONE_2) && CleanEnd(ONE, ONE_2) && ONE_2.numNodes == 0
    ensures ONE_2.make[0] && ONE_2.made[0].Remade? && !HasCommand(ONE, 0)
  {
    OneIsInitial();
    OneEnds();
    assert ClockedRun(ONE, [0], ONE_0, [DoExamine, EndFilling, Check], 1, ONE_2);
    assert Reachable(ONE, ONE_2);
  }
}
