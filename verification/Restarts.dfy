/** What the program's loops and nested calls amount to, in terms of the state machine.
  *
  * The program goes through the hold queue at the end of every JobFinish, and so
  * also in the middle of JobExec, where the machine makes Restart steps later.
  */
module Restarts {
  import opened Graph
  import opened Scheduler
  import opened Protocol
  import opened JobTable
  import opened Readiness
  import opened Commands
  import opened Times
  import opened Outcome
  import T = Termination
  import Compat

  /** The restart loop at the end of JobFinish, run to its end. */
  function RestartAll(c: Config, s: State): (r: State)
    requires Shaped(c) && Sized(c, s)
    ensures Sized(c, r) && !Pending(r)
    decreases Slack(s)
  {
    if Pending(s) then RestartAll(c, JobRestart(c, s)) else s
  }

  /** How many held jobs may still be restarted. */
  function Slack(s: State): nat {
    if s.jobFull then 0 else 1 + |s.held|
  }

  lemma {:induction false} RestartAllSlack(c: Config, s: State)
    requires Shaped(c) && Sized(c, s)
    ensures Slack(RestartAll(c, s)) <= Slack(s)
    decreases Slack(s)
  {
    if Pending(s) { RestartAllSlack(c, JobRestart(c, s)); }
  }

  /** The next command of the job is to be executed now. */
  predicate Ready(c: Config, s: State, job: Job)
    requires Shaped(c) && Sized(c, s) && job.node < c.size
  {
    var k := NextCommand(s, job);
    k < |c.commands[job.node]| && !c.commands[job.node][k].blank
  }

  /** The cursors after the job has taken its next command. */
  function ReadOne(c: Config, s: State, job: Job): seq<nat>
    requires Shaped(c) && Sized(c, s) && job.node < c.size
  {
    var n, k := job.node, NextCommand(s, job);
    if k < |c.commands[n]| then s.cursor[n := k + 1] else s.cursor
  }

  /** The job with the flags of the command it is about to execute. */
  function Flagged(c: Config, s: State, job: Job): (r: Job)
    requires Shaped(c) && Sized(c, s) && job.node < c.size && Ready(c, s, job)
    ensures r.node == job.node
  {
    job.(ignerr := job.ignerr || c.commands[job.node][NextCommand(s, job)].dash)
  }

  /** What JobExec leaves: a finished or blank command is followed by the restart loop. */
  function Executed(c: Config, s: State, job: Job): (r: State)
    requires Shaped(c) && Sized(c, s) && job.node < c.size
    ensures Sized(c, r)
  {
    if Ready(c, s, job) then JobExec(c, s, job) else RestartAll(c, JobExec(c, s, job))
  }

  /** JobExec, in terms of the command it takes. */
  lemma ExecOneCommand(c: Config, s: State, job: Job)
    requires Shaped(c) && Sized(c, s) && job.node < c.size && s.nJobs < c.maxJobs
    requires CursorOk(c.commands[job.node], s.cursor[job.node], false)
    ensures var read := s.(cursor := ReadOne(c, s, job));
      && Sized(c, read)
      && JobExec(c, s, job) ==
        if Ready(c, s, job) then Launch(c, read, Flagged(c, s, job)) else JobStart(c, read, Renew(c, job))
  {
  }

  /** Running the restart loop to its end again does nothing. */
  lemma RestartAllTwice(c: Config, s: State)
    requires Shaped(c) && Sized(c, s)
    ensures RestartAll(c, RestartAll(c, s)) == RestartAll(c, s)
    ensures Slack(RestartAll(c, s)) <= Slack(s)
  {
    RestartAllSlack(c, s);
  }

  lemma ExecutedSlack(c: Config, s: State, job: Job)
    requires Shaped(c) && Sized(c, s) && job.node < c.size && !s.jobFull
    ensures Slack(Executed(c, s, job)) <= Slack(s)
    ensures RestartAll(c, Executed(c, s, job)) == RestartAll(c, JobExec(c, s, job))
  {
    RestartAllTwice(c, JobExec(c, s, job));
  }

  /** JobRestart, in terms of the queue without the job. */
  lemma RestartOneJob(c: Config, s: State, job: Job)
    requires Shaped(c) && Sized(c, s) && job.node < c.size
    ensures var r := s.(held := [job] + s.held);
      && Sized(c, r)
      && JobRestart(c, r) ==
        if s.nLocal >= c.maxLocal && s.nJobs >= c.maxJobs then r.(jobFull := true)
        else JobExec(c, s, job.(remote := s.nLocal >= c.maxLocal))
  {
    var r := s.(held := [job] + s.held);
    assert r.held[1..] == s.held;
    assert r.(held := r.held[1..]) == s;
  }

  /** A list that has been gone through, or was never opened, has no command left. */
  predicate CursorOk(cmds: seq<Command>, k: nat, end: bool) {
    k <= |cmds| && (end ==> k == |cmds|)
  }

  lemma SuffixesWithin(xs: seq<Node>, n: nat)
    requires Within(xs, n)
    ensures forall i :: 0 <= i <= |xs| ==> Within(xs[i..], n)
    ensures xs[0..] == xs && xs[|xs|..] == []
  {
  }

  lemma ParentTouches(c: Config, s: State, n: Node, p: Node)
    requires Shaped(c) && Sized(c, s) && n < c.size && p < c.size
    ensures var r := UpdateParent(c, s, n, p);
      r == s.(unmade := r.unmade, childMade := r.childMade, cmtime := r.cmtime, toBeMade := r.toBeMade)
  {
  }

  lemma ParentTurn(c: Config, s: State, n: Node, ps: seq<Node>, i: nat)
    requires Shaped(c) && Sized(c, s) && n < c.size && Within(ps, c.size) && i < |ps|
    requires Within(ps[i..], c.size) && Within(ps[i + 1..], c.size)
    ensures UpdateParents(c, s, n, ps[i..]) == UpdateParents(c, UpdateParent(c, s, n, ps[i]), n, ps[i + 1..])
  {
    assert ps[i..][0] == ps[i] && ps[i..][1..] == ps[i + 1..];
  }

  lemma SuccessorTurn(c: Config, s: State, succs: seq<Node>, i: nat)
    requires Shaped(c) && Sized(c, s) && Within(succs, c.size) && i < |succs|
    requires Within(succs[i..], c.size) && Within(succs[i + 1..], c.size)
    ensures WakeSuccessors(c, s, succs[i..]) == WakeSuccessors(c, WakeSuccessor(c, s, succs[i]), succs[i + 1..])
  {
    assert succs[i..][0] == succs[i] && succs[i..][1..] == succs[i + 1..];
  }

  /** The restart loop of Job_Empty, which does not look at errors. */
  function RestartHeld(c: Config, s: State): (r: State)
    requires Shaped(c) && Sized(c, s)
    ensures Sized(c, r) && (r.jobFull || r.held == [])
    decreases Slack(s)
  {
    if s.jobFull || s.held == [] then s else RestartHeld(c, JobRestart(c, s))
  }

  /** The nested restart loops only do part of what the outer one does. */
  lemma {:induction false} RestartHeldAfterAll(c: Config, s: State)
    requires Shaped(c) && Sized(c, s)
    ensures RestartHeld(c, RestartAll(c, s)) == RestartHeld(c, s)
    decreases Slack(s)
  {
    if Pending(s) { RestartHeldAfterAll(c, JobRestart(c, s)); }
  }

  lemma RestartedAlike(c: Config, s: State, r: State)
    requires Shaped(c) && Sized(c, s) && Sized(c, r) && !s.jobFull && s.held != []
    requires RestartAll(c, r) == RestartAll(c, JobRestart(c, s))
    ensures RestartHeld(c, r) == RestartHeld(c, s)
  {
    RestartHeldAfterAll(c, r);
    RestartHeldAfterAll(c, JobRestart(c, s));
  }

  /** In MakeStartJobs a job that has been started leaves nothing for the restart loop to do. */
  lemma StartLeavesNonePending(c: Config, s: State, job: Job)
    requires Shaped(c) && Sized(c, s) && job.node < c.size
    requires !Pending(s) && (s.jobFull ==> s.nJobs >= c.maxJobs)
    ensures RestartAll(c, JobStart(c, s, job)) == JobStart(c, s, job)
    ensures JobStart(c, s, job).aborting == s.aborting
  {
    StartFrame(c, s, job);
  }

  /** The head of the queue has been taken, and counted unless something holds it back. */
  function Taken(s: State, blocked: bool): State
    requires s.toBeMade != []
  {
    if blocked then s.(toBeMade := s.toBeMade[1..])
    else s.(toBeMade := s.toBeMade[1..], numNodes := s.numNodes - 1, order := s.order + [s.toBeMade[0]])
  }

  lemma ExamineTaken(c: Config, s: State)
    requires Shaped(c) && Sized(c, s) && s.toBeMade != []
    ensures var n := s.toBeMade[0]; var blocked := Blocked(c, s, n); var r := Taken(s, blocked);
      && Sized(c, r) && (Pending(r) <==> Pending(s))
      && Examine(c, s) == if blocked then r else Judge(c, LookUp(c, r, n), n)
  {
  }

  lemma FirstStartKeepsMode(c: Config, s: State, n: Node)
    requires Shaped(c) && Sized(c, s) && n < c.size
    ensures JobStart(c, CheckCommands(c, s, n), Job(n, true, false, false, c.attr[n].ignore)).mode == s.mode
  {
    StartFrame(c, CheckCommands(c, s, n), Job(n, true, false, false, c.attr[n].ignore));
  }

  // ------------------------------------------------------ reachable states

  /** Where a run comes from: the nodes that are marked, the times of the files, and, if commands
    * leave their file with the same time in every run, those times; and whether none of them fails. */
  datatype Origin = Origin(marks: seq<bool>, ft0: seq<int>, post: seq<int>, repeatable: bool, sound: bool)

  ghost predicate Reached(c: Config, o: Origin, s: State) {
    && Reachable(c, s) && s.make == o.marks
    && (o.repeatable ==> ReachedWith(c, o.ft0, o.post, s))
    && (o.sound ==> s.errors == 0)
  }

  lemma UpdateKeepsMarks(c: Config, s: State, n: Node)
    requires Shaped(c) && Sized(c, s) && n < c.size
    ensures MakeUpdate(c, s, n).make == s.make
  {
    UpdateFrame(c, s, n);
  }

  lemma ExamineKeepsMarks(c: Config, s: State)
    requires Shaped(c) && Sized(c, s) && s.toBeMade != []
    ensures Examine(c, s).make == s.make
  {
    ExamineTaken(c, s);
    var n := s.toBeMade[0];
    if !Blocked(c, s, n) {
      var seen := LookUp(c, Taken(s, false), n);
      if IsOut(c, seen, n) {
        JobMakeKeepsMarks(c, seen, n);
      } else {
        UpdateKeepsMarks(c, PassOver(c, seen, n), n);
      }
    }
  }

  lemma JobMakeKeepsMarks(c: Config, s: State, n: Node)
    requires Shaped(c) && Sized(c, s) && n < c.size
    ensures JobMake(c, s, n).make == s.make
  {
    StartFrame(c, CheckCommands(c, s, n), Job(n, true, false, false, c.attr[n].ignore));
  }

  /** No step marks a node, or removes a mark. */
  lemma StepKeepsMarks(c: Config, s: State, a: Action)
    requires Shaped(c) && Sized(c, s) && Enabled(s, a)
    ensures Apply(c, s, a).make == s.make
  {
    match a
    case DoExamine => ExamineKeepsMarks(c, s);
    case Restart =>
      ExecFrame(c, s.(held := s.held[1..]), s.held[0].(remote := s.nLocal >= c.maxLocal));
    case DoExit(i, status, stamp) =>
      StartFrame(c, Ended(s, i, status, stamp), Renew(c, s.jobs[i]));
    case _ =>
  }

  lemma {:induction false} StampedAppend(c: Config, s0: State, actions: seq<Action>, s: State, a: Action, post: seq<int>)
    requires Shaped(c) && Sized(c, s0) && Sized(c, s) && Run(c, s0, actions, s) && Enabled(s, a)
    requires |post| == c.size && Stamped(c, s0, actions, post)
    requires a.DoExit? ==> a.stamp == post[s.jobs[a.i].node]
    ensures Stamped(c, s0, actions + [a], post)
    decreases |actions|
  {
    if actions == [] {
      assert [] + [a] == [a];
      assert [a][1..] == [];
    } else {
      assert (actions + [a])[0] == actions[0] && (actions + [a])[1..] == actions[1..] + [a];
      StampedAppend(c, Apply(c, s0, actions[0]), actions[1..], s, a, post);
    }
  }

  lemma ReachStart(c: Config, o: Origin, s: State)
    requires Initial(c, s) && s.ftime == o.ft0 && s.make == o.marks && (o.repeatable ==> |o.post| == c.size)
    ensures Reached(c, o, s)
  {
    assert Run(c, s, [], s);
    if o.repeatable { assert Stamped(c, s, [], o.post); }
  }

  lemma ReachMore(c: Config, s: State, a: Action)
    requires Reachable(c, s) && Enabled(s, a)
    ensures Reachable(c, Apply(c, s, a))
  {
    var s0, actions :| Initial(c, s0) && Run(c, s0, actions, s);
    RunAppend(c, s0, actions, s, a);
  }

  lemma ReachMoreWith(c: Config, ft0: seq<int>, post: seq<int>, s: State, a: Action)
    requires ReachedWith(c, ft0, post, s) && Enabled(s, a)
    requires a.DoExit? ==> s.jobs[a.i].node < c.size && a.stamp == post[s.jobs[a.i].node]
    ensures ReachedWith(c, ft0, post, Apply(c, s, a))
  {
    var s0, actions :| Initial(c, s0) && s0.ftime == ft0 && Run(c, s0, actions, s) && Stamped(c, s0, actions, post);
    RunAppend(c, s0, actions, s, a);
    StampedAppend(c, s0, actions, s, a, post);
    assert Run(c, s0, actions + [a], Apply(c, s, a)) && Stamped(c, s0, actions + [a], post);
  }

  /** A step of the machine reaches a further state, and takes the measure down. */
  lemma ReachStep(c: Config, o: Origin, s: State, a: Action)
    requires Reached(c, o, s) && Enabled(s, a)
    requires o.repeatable && a.DoExit? ==> s.jobs[a.i].node < |o.post| && a.stamp == o.post[s.jobs[a.i].node]
    requires o.sound && a.DoExit? ==> !Counts(a.status, s.jobs[a.i])
    ensures Reached(c, o, Apply(c, s, a))
    ensures T.Below(c, Apply(c, s, a), s)
  {
    ReachMore(c, s, a);
    StepKeepsMarks(c, s, a);
    if a.DoExit? { ExitTouchesOneFile(c, s, a.i, a.status, a.stamp); } else { OnlyExitsTouchFiles(c, s, a); }
    if o.repeatable { ReachMoreWith(c, o.ft0, o.post, s, a); }
    ReachableInv(c, s);
    T.StepGoesDown(c, s, a);
  }

  lemma NotPendingInFilling(c: Config, s: State)
    requires Reachable(c, s) && s.mode.Filling?
    ensures !Pending(s) && s.numNodes >= 0
  {
    ReachableInv(c, s);
    T.NumNodesIsCount(c, s);
  }

  lemma EndedSized(c: Config, s: State, i: nat, status: Status, stamp: int)
    requires Shaped(c) && Sized(c, s) && i < |s.jobs|
    ensures Sized(c, Ended(s, i, status, stamp))
  {
  }

  lemma NumNodesNotNegative(c: Config, s: State)
    requires Reachable(c, s)
    ensures s.numNodes >= 0
  {
    ReachableInv(c, s);
    T.NumNodesIsCount(c, s);
  }

  lemma ExamineModes(c: Config, s: State)
    requires Shaped(c) && Sized(c, s) && s.toBeMade != [] && s.mode.Filling?
    requires !Pending(s) && (s.jobFull ==> s.nJobs >= c.maxJobs)
    ensures var r := Examine(c, s); (r.mode.Filling? || r.mode.Checking? || r.mode.Dead?) && !Pending(r)
  {
    ExamineTaken(c, s);
    var n := s.toBeMade[0];
    if !Blocked(c, s, n) {
      var seen := LookUp(c, Taken(s, false), n);
      if IsOut(c, seen, n) {
        JobMakeModes(c, seen, n);
      } else {
        UpdateFrame(c, PassOver(c, seen, n), n);
      }
    }
  }

  lemma JobMakeModes(c: Config, s: State, n: Node)
    requires Shaped(c) && Sized(c, s) && n < c.size && s.mode.Filling?
    requires !Pending(s) && (s.jobFull ==> s.nJobs >= c.maxJobs)
    ensures var r := JobMake(c, s, n); (r.mode.Filling? || r.mode.Checking? || r.mode.Dead?) && !Pending(r)
  {
    FirstStartKeepsMode(c, s, n);
    StartLeavesNonePending(c, CheckCommands(c, s, n), Job(n, true, false, false, c.attr[n].ignore));
  }

  /** Not above: the same measure or a smaller one. */
  predicate Down(c: Config, r: State, s: State)
    requires Shaped(c) && Sized(c, r) && Sized(c, s)
  {
    r == s || T.Below(c, r, s)
  }

  lemma RestartKeepsMode(c: Config, s: State)
    requires Shaped(c) && Sized(c, s) && s.held != []
    ensures JobRestart(c, s).mode == s.mode
  {
    ExecFrame(c, s.(held := s.held[1..]), s.held[0].(remote := s.nLocal >= c.maxLocal));
  }

  lemma {:induction false} ReachRestartAll(c: Config, o: Origin, s: State)
    requires Reached(c, o, s) && (s.mode.Filling? || s.mode.Catching?)
    ensures var r := RestartAll(c, s);
      Reached(c, o, r) && Down(c, r, s) && r.mode == s.mode
    decreases Slack(s)
  {
    if Pending(s) {
      ReachStep(c, o, s, Restart);
      RestartKeepsMode(c, s);
      ReachRestartAll(c, o, JobRestart(c, s));
    }
  }

  lemma {:induction false} ReachRestartHeld(c: Config, o: Origin, s: State)
    requires Reached(c, o, s) && s.mode.Restarting?
    ensures var r := RestartHeld(c, s);
      Reached(c, o, r) && Down(c, r, s) && r.mode.Restarting?
    decreases Slack(s)
  {
    if !s.jobFull && s.held != [] {
      ReachStep(c, o, s, Restart);
      RestartKeepsMode(c, s);
      ReachRestartHeld(c, o, JobRestart(c, s));
    }
  }

  lemma ExitKeepsMode(c: Config, s: State, i: nat, status: Status, stamp: int)
    requires Shaped(c) && Sized(c, s) && i < |s.jobs|
    ensures Exit(c, s, i, status, stamp).mode == s.mode
  {
    StartFrame(c, Ended(s, i, status, stamp), Renew(c, s.jobs[i]));
  }

  lemma RunningCommand(c: Config, s: State, i: nat, status: Status)
    requires Reachable(c, s) && i < |s.jobs|
    ensures var n := s.jobs[i].node;
      && n < c.size && 1 <= s.cursor[n] <= |c.commands[n]| && !c.commands[n][s.cursor[n] - 1].blank
      && (Counts(status, s.jobs[i]) <==>
            status.Killed? || (status.code != 0 && !c.commands[n][s.cursor[n] - 1].dash && !c.attr[n].ignore))
  {
    ReachableInv(c, s);
    CountsExactly(c, s, i, status);
  }

  /** A child ends: its JobFinish, with the restart loop. */
  lemma ReachExit(c: Config, o: Origin, s: State, i: nat, status: Status, stamp: int)
    requires Reached(c, o, s) && s.mode.Catching? && !Pending(s) && i < |s.jobs|
    requires (o.repeatable ==> stamp == o.post[s.jobs[i].node]) && (o.sound ==> !Counts(status, s.jobs[i]))
    ensures var r := RestartAll(c, Exit(c, s, i, status, stamp));
      Reached(c, o, r) && T.Below(c, r, s) && r.mode.Catching? && !Pending(r)
  {
    ReachStep(c, o, s, DoExit(i, status, stamp));
    ExitKeepsMode(c, s, i, status, stamp);
    ReachRestartAll(c, o, Exit(c, s, i, status, stamp));
  }

  // --------------------------------------------------------------- marking

  /** Every marked node without children is in the queue, once, and nothing else is. */
  ghost predicate LeavesQueued(c: Config, make: seq<bool>, toBeMade: seq<Node>, numNodes: int)
    requires Shaped(c) && |make| == c.size
  {
    && numNodes == |Marked(make)| && Distinct(toBeMade)
    && (forall x: Node :: x in toBeMade <==> x < c.size && make[x] && |c.children[x]| == 0)
  }

  /** What is marked or to be looked at is what the targets need; the children of a marked node and
    * the targets are marked or to be looked at. */
  ghost predicate Frontier(c: Config, targets: seq<Node>, make: seq<bool>, examine: seq<Node>)
    requires Shaped(c) && |make| == c.size
  {
    && Within(examine, c.size) && Within(targets, c.size)
    && (forall x: Node, y: Node :: x < c.size && make[x] && y in c.children[x] ==> y < c.size && (make[y] || y in examine))
    && (forall x: Node :: x in targets ==> x < c.size && (make[x] || x in examine))
    && (forall x: Node :: x < c.size && (make[x] || x in examine) ==> Compat.Below(c, targets, x))
  }

  lemma MarkedGrows(make: seq<bool>, n: Node)
    requires n < |make| && !make[n]
    ensures |Marked(make[n := true])| == |Marked(make)| + 1
  {
    assert Marked(make[n := true]) == Marked(make) + {n};
  }

  lemma {:induction false} MarkedBounded(make: seq<bool>)
    ensures |Marked(make)| <= |make|
  {
    if make == [] {
      assert Marked(make) == {};
    } else {
      var k := |make| - 1;
      MarkedBounded(make[..k]);
      assert Marked(make) == Marked(make[..k]) + if make[k] then {k} else {};
    }
  }

  lemma LeafQueued(c: Config, make: seq<bool>, toBeMade: seq<Node>, numNodes: int, n: Node)
    requires Shaped(c) && |make| == c.size && n < c.size && !make[n] && LeavesQueued(c, make, toBeMade, numNodes)
    ensures LeavesQueued(c, make[n := true], if c.children[n] == [] then toBeMade + [n] else toBeMade, numNodes + 1)
    ensures |Marked(make[n := true])| == |Marked(make)| + 1
  {
    MarkedGrows(make, n);
    assert n !in toBeMade;
  }

  lemma FrontierStarts(c: Config, targets: seq<Node>, make: seq<bool>)
    requires Shaped(c) && |make| == c.size && Within(targets, c.size) && forall x :: 0 <= x < c.size ==> !make[x]
    ensures Frontier(c, targets, make, targets)
  {
    forall x: Node | x in targets ensures Compat.Below(c, targets, x) {
      assert Descent(c, [x]);
    }
  }

  lemma FrontierSkips(c: Config, targets: seq<Node>, make: seq<bool>, examine: seq<Node>)
    requires Shaped(c) && |make| == c.size && Frontier(c, targets, make, examine)
    requires examine != [] && make[examine[0]]
    ensures Frontier(c, targets, make, examine[1..])
  {
    assert examine == [examine[0]] + examine[1..];
  }

  lemma BelowChild(c: Config, targets: seq<Node>, n: Node, y: Node)
    requires Shaped(c) && n < c.size && y in c.children[n] && Compat.Below(c, targets, n)
    ensures y < c.size && Compat.Below(c, targets, y)
  {
    var p :| Descent(c, p) && p[0] in targets && p[|p| - 1] == n;
    assert Descent(c, p + [y]);
  }

  lemma FrontierMoves(c: Config, targets: seq<Node>, make: seq<bool>, examine: seq<Node>, n: Node, r: seq<Node>)
    requires Shaped(c) && |make| == c.size && n < c.size && Frontier(c, targets, make, [n] + examine)
    requires Within(r, c.size) && (forall y :: y in examine ==> y in r)
    requires forall y :: y in r ==> y in examine || y in c.children[n]
    requires forall y :: y in c.children[n] ==> y < c.size && (make[n := true][y] || y in r)
    ensures Frontier(c, targets, make[n := true], r)
  {
    var make' := make[n := true];
    assert forall x :: x in [n] + examine ==> x == n || x in examine;
    assert n in [n] + examine;
    forall x: Node | x < c.size && (make'[x] || x in r) ensures Compat.Below(c, targets, x) {
      if x != n && !make[x] && x !in examine { BelowChild(c, targets, n, x); }
      if x in examine { assert x in [n] + examine; }
    }
  }

  lemma {:induction false} DescentMarked(c: Config, make: seq<bool>, p: seq<Node>)
    requires Shaped(c) && |make| == c.size && MarkOk(c, make) && Descent(c, p) && make[p[0]]
    ensures make[p[|p| - 1]]
  {
    if |p| > 1 {
      var q := p[..|p| - 1];
      DescentMarked(c, make, q);
      assert p[|p| - 2 + 1] in c.children[p[|p| - 2]];
    }
  }

  /** When nothing is left to look at, exactly what the targets need is marked. */
  lemma FrontierEmpty(c: Config, targets: seq<Node>, make: seq<bool>)
    requires Shaped(c) && |make| == c.size && Frontier(c, targets, make, [])
    ensures MarkOk(c, make) && Compat.MarksReachable(c, targets, make)
  {
    assert MarkOk(c, make) by {
      forall x, y | 0 <= x < c.size && make[x] && y in c.children[x] ensures y < c.size && make[y] {}
    }
    forall x: Node | x < c.size && Compat.Below(c, targets, x) ensures make[x] {
      var p :| Descent(c, p) && p[0] in targets && p[|p| - 1] == x;
      DescentMarked(c, make, p);
    }
  }
}
