/** Every run ends: the machine never gets stuck before the end, and no run is infinite. */
module Termination {
  import opened Graph
  import opened Scheduler
  import opened Protocol
  import opened JobTable
  import opened Readiness
  import opened Commands

  predicate InGraph(c: Config, jobs: seq<Job>) {
    forall i :: 0 <= i < |jobs| ==> jobs[i].node < c.size
  }

  lemma TailInGraph(c: Config, jobs: seq<Job>)
    requires InGraph(c, jobs) && jobs != []
    ensures InGraph(c, jobs[1..])
  {
    assert forall i :: 0 <= i < |jobs[1..]| ==> jobs[1..][i] == jobs[i + 1];
  }

  /** One more than the number of commands that are left after the first k. */
  function Left(c: Config, n: Node, k: nat): nat
    requires Shaped(c) && n < c.size
  {
    if k < |c.commands[n]| then |c.commands[n]| - k + 1 else 1
  }

  function RunningWork(c: Config, cursor: seq<nat>, jobs: seq<Job>): nat
    requires Shaped(c) && |cursor| == c.size && InGraph(c, jobs)
  {
    if jobs == [] then 0
    else
      TailInGraph(c, jobs);
      Left(c, jobs[0].node, cursor[jobs[0].node]) + RunningWork(c, cursor, jobs[1..])
  }

  function HeldWork(c: Config, jobs: seq<Job>): nat
    requires Shaped(c) && InGraph(c, jobs)
  {
    if jobs == [] then 0
    else
      TailInGraph(c, jobs);
      Left(c, jobs[0].node, 0) + 1 + HeldWork(c, jobs[1..])
  }

  /** An upper bound on the command ends and job starts to come from the jobs there are. */
  function Work(c: Config, s: State): nat
    requires Shaped(c) && Sized(c, s)
  {
    RunningWork(c, s.cursor, s.jobs) + HeldWork(c, s.held)
  }

  lemma {:induction false} AppendWork(c: Config, cursor: seq<nat>, jobs: seq<Job>, job: Job)
    requires Shaped(c) && |cursor| == c.size && InGraph(c, jobs) && job.node < c.size
    ensures InGraph(c, jobs + [job])
    ensures RunningWork(c, cursor, jobs + [job]) == RunningWork(c, cursor, jobs) + Left(c, job.node, cursor[job.node])
  {
    if jobs == [] {
      assert [] + [job] == [job];
    } else {
      TailInGraph(c, jobs);
      assert (jobs + [job])[1..] == jobs[1..] + [job];
      AppendWork(c, cursor, jobs[1..], job);
    }
  }

  lemma {:induction false} RemoveWork(c: Config, cursor: seq<nat>, jobs: seq<Job>, i: nat)
    requires Shaped(c) && |cursor| == c.size && InGraph(c, jobs) && i < |jobs|
    ensures InGraph(c, jobs[..i] + jobs[i + 1..])
    ensures RunningWork(c, cursor, jobs) ==
      RunningWork(c, cursor, jobs[..i] + jobs[i + 1..]) + Left(c, jobs[i].node, cursor[jobs[i].node])
  {
    if i == 0 {
      assert jobs[..0] + jobs[1..] == jobs[1..];
    } else {
      TailInGraph(c, jobs);
      RemoveWork(c, cursor, jobs[1..], i - 1);
      assert (jobs[..i] + jobs[i + 1..])[1..] == jobs[1..][..i - 1] + jobs[1..][i..];
    }
  }

  lemma {:induction false} CursorOfOther(c: Config, cursor: seq<nat>, jobs: seq<Job>, n: Node, k: nat)
    requires Shaped(c) && |cursor| == c.size && InGraph(c, jobs) && n < c.size && NodesOf(jobs)[n] == 0
    ensures RunningWork(c, cursor[n := k], jobs) == RunningWork(c, cursor, jobs)
  {
    if jobs != [] {
      TailInGraph(c, jobs);
      CursorOfOther(c, cursor, jobs[1..], n, k);
    }
  }

  lemma LaunchWork(c: Config, s: State, job: Job)
    requires Shaped(c) && Sized(c, s) && job.node < c.size
    ensures Work(c, Launch(c, s, job)) == Work(c, s) + Left(c, job.node, s.cursor[job.node])
  {
    AppendWork(c, s.cursor, s.jobs, job);
  }

  lemma CompleteWork(c: Config, s: State, n: Node)
    requires Shaped(c) && Sized(c, s) && n < c.size
    ensures Work(c, Complete(c, s, n)) == Work(c, s)
  {
    if !s.aborting { UpdateFrame(c, s.(made := s.made[n := Remade]), n); }
  }

  lemma ReadWork(c: Config, s: State, n: Node, k: nat)
    requires Shaped(c) && Sized(c, s) && n < c.size && NodesOf(s.jobs)[n] == 0
    ensures Work(c, s.(cursor := s.cursor[n := k])) == Work(c, s)
  {
    CursorOfOther(c, s.cursor, s.jobs, n, k);
  }

  /** Starting a job adds no more work than the commands it has not read. */
  lemma {:induction false} ExecWork(c: Config, s: State, job: Job)
    requires Shaped(c) && Sized(c, s) && job.node < c.size && NodesOf(s.jobs)[job.node] == 0
    requires s.nJobs < c.maxJobs
    ensures Work(c, JobExec(c, s, job)) <= Work(c, s) + Unread(c, s, job)
    decreases Unread(c, s, job), 0
  {
    var n, k := job.node, NextCommand(s, job);
    if k >= |c.commands[n]| {
      CompleteWork(c, s, n);
    } else {
      var read := s.(cursor := s.cursor[n := k + 1]);
      ReadWork(c, s, n, k + 1);
      if c.commands[n][k].blank {
        StartWork(c, read, Renew(c, job));
      } else {
        LaunchWork(c, read, job.(ignerr := job.ignerr || c.commands[n][k].dash));
      }
    }
  }

  lemma {:induction false} StartWork(c: Config, s: State, job: Job)
    requires Shaped(c) && Sized(c, s) && job.node < c.size && NodesOf(s.jobs)[job.node] == 0
    requires s.nJobs < c.maxJobs
    ensures Work(c, JobStart(c, s, job)) <= Work(c, s) + Unread(c, s, job)
    decreases Unread(c, s, job), 1
  {
    ExecWork(c, s, job.(remote := s.nLocal >= c.maxLocal));
  }

  /** How far control is from the next step that does something. */
  function Rank(s: State): nat {
    match s.mode
    case Finished => 0
    case Dead => 0
    case Catching => if s.jobs != [] then 1 else 6
    case Restarting => if s.jobFull || s.held == [] then 7 else 2
    case Checking => 4
    case Filling => 5
  }

  /** The measure of a state, in lexicographic order: nodes not yet examined, work of the jobs,
    * length of the queue, and rank. */
  predicate Below(c: Config, r: State, s: State)
    requires Shaped(c) && Sized(c, r) && Sized(c, s)
  {
    || r.numNodes < s.numNodes
    || (r.numNodes == s.numNodes &&
        (|| Work(c, r) < Work(c, s)
         || (Work(c, r) == Work(c, s) &&
             (|| |r.toBeMade| < |s.toBeMade|
              || (|r.toBeMade| == |s.toBeMade| && Rank(r) < Rank(s))))))
  }

  lemma ExitWorks(c: Config, s: State, i: nat, status: Status, stamp: int)
    requires Shaped(c) && Sized(c, s) && i < |s.jobs| && s.nJobs <= c.maxJobs
    requires NodesOf(s.jobs)[s.jobs[i].node] == 1
    requires 1 <= s.cursor[s.jobs[i].node] <= |c.commands[s.jobs[i].node]|
    ensures var r := Exit(c, s, i, status, stamp); Work(c, r) < Work(c, s) && r.numNodes == s.numNodes
  {
    var job, s1 := s.jobs[i], Ended(s, i, status, stamp);
    RemoveJob(s.jobs, i);
    RemoveWork(c, s.cursor, s.jobs, i);
    if !Counts(status, job) {
      StartWork(c, s1, Renew(c, job));
      StartFrame(c, s1, Renew(c, job));
    }
  }

  lemma RestartWorks(c: Config, s: State)
    requires Shaped(c) && Sized(c, s) && s.held != [] && s.nJobs < c.maxJobs
    requires NodesOf(s.jobs)[s.held[0].node] == 0 && s.held[0].first
    ensures var r := JobRestart(c, s); Work(c, r) < Work(c, s) && r.numNodes == s.numNodes
  {
    var job, s1 := s.held[0], s.(held := s.held[1..]);
    TailInGraph(c, s.held);
    ExecWork(c, s1, job.(remote := s.nLocal >= c.maxLocal));
    ExecFrame(c, s1, job.(remote := s.nLocal >= c.maxLocal));
  }

  lemma JobMakeCounts(c: Config, s: State, n: Node)
    requires Shaped(c) && Sized(c, s) && n < c.size
    ensures JobMake(c, s, n).numNodes == s.numNodes
  {
    StartFrame(c, CheckCommands(c, s, n), Job(n, true, false, false, c.attr[n].ignore));
  }

  lemma ExamineWorks(c: Config, s: State)
    requires Shaped(c) && Sized(c, s) && s.toBeMade != []
    ensures Below(c, Examine(c, s), s)
  {
    var n := s.toBeMade[0];
    if Blocked(c, s, n) {
      assert Examine(c, s) == s.(toBeMade := s.toBeMade[1..]);
    } else {
      var seen := Seen(c, s);
      if IsOut(c, seen, n) {
        JobMakeCounts(c, seen, n);
      } else {
        UpdateFrame(c, PassOver(c, seen, n), n);
      }
    }
  }

  lemma RunningCursor(c: Config, s: State, i: nat)
    requires Inv(c, s) && i < |s.jobs|
    ensures s.jobs[i].node < c.size && 1 <= s.cursor[s.jobs[i].node] <= |c.commands[s.jobs[i].node]|
  {
    assert RunsCommand(c, s.cursor, s.jobs[i]);
  }

  lemma ControlGoesDown(c: Config, s: State, a: Action)
    requires Shaped(c) && Sized(c, s) && Enabled(s, a) && s.nJobs == |s.jobs|
    requires a.EndFilling? || a.Check? || a.EndRestarting? || a.EndCatching?
    ensures Below(c, Apply(c, s, a), s)
  {
  }

  /** Every step makes the measure smaller. */
  lemma StepGoesDown(c: Config, s: State, a: Action)
    requires Inv(c, s) && Enabled(s, a)
    ensures Below(c, Apply(c, s, a), s)
  {
    if a.DoExamine? {
      ExamineWorks(c, s);
    } else if a.Restart? {
      HeldNode(c, s);
      RestartWorks(c, s);
    } else if a.DoExit? {
      RunningNode(c, s, a.i);
      RunningCursor(c, s, a.i);
      ExitWorks(c, s, a.i, a.status, a.stamp);
    } else {
      ControlGoesDown(c, s, a);
    }
  }

  lemma NumNodesIsCount(c: Config, s: State)
    requires Inv(c, s)
    ensures s.numNodes >= 0
  {
    SizeOfDistinct(s.order, Marked(s.make));
  }

  /** So no run is infinite: a sequence of steps without end is impossible. */
  lemma {:induction false} NoInfiniteRun(c: Config, states: nat -> State, actions: nat -> Action, i: nat)
    requires Inv(c, states(i))
    requires forall k: nat :: k >= i && Inv(c, states(k)) ==>
      Enabled(states(k), actions(k)) && states(k + 1) == Apply(c, states(k), actions(k))
    ensures false
    decreases states(i).numNodes, Work(c, states(i)), |states(i).toBeMade|, Rank(states(i))
  {
    NumNodesIsCount(c, states(i));
    StepKeeps(c, states(i), actions(i));
    StepGoesDown(c, states(i), actions(i));
    NumNodesIsCount(c, states(i + 1));
    NoInfiniteRun(c, states, actions, i + 1);
  }

  /** A state in which nothing is enabled is the end of the main loop, or, without -k, the exit
    * because there is no way to make a node. */
  lemma StopsOnlyAtTheEnd(s: State)
    ensures (forall a :: !Enabled(s, a)) <==> s.mode.Finished? || s.mode.Dead?
  {
    if !s.mode.Finished? && !s.mode.Dead? {
      var a :=
        if s.mode.Checking? then Check
        else if s.mode.Restarting? then (if s.jobFull || s.held == [] then EndRestarting else Restart)
        else if Pending(s) then Restart
        else if s.mode.Filling? then (if s.toBeMade == [] then EndFilling else DoExamine)
        else if s.jobs == [] then EndCatching
        else DoExit(0, Killed, 0);
      assert Enabled(s, a);
    }
  }
}
