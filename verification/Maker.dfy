/** The parallel engine as the program runs it: the procedures of make.c and job.c, over variables.
  *
  * Every method is proved against the function of the same name in module
  * Scheduler; together they show that the program only makes steps of that state
  * machine, so that what holds in all its reachable states holds of the program.
  */
module Maker {
  import opened Graph
  import opened Scheduler
  import opened Protocol
  import opened JobTable
  import opened Readiness
  import opened Outcome
  import opened Restarts
  import T = Termination
  import Compat

  class Engine {
    const c: Config
    // The children, in the order in which waitpid reports them: which of the running ones it is,
    // how it ended, given its node and the number of its command, and what time the target's file has then.
    const which: nat -> nat
    const status: (nat, Node, nat) -> Status
    const stamp: (nat, Node) -> int

    var make: seq<bool>
    var made: seq<Made>
    var unmade: seq<int>
    var childMade: seq<bool>
    var mtime: seq<int>
    var cmtime: seq<int>
    var cursor: seq<nat>
    var atEnd: seq<bool>       // has the node's list of commands been gone through?
    var ftime: seq<int>
    var toBeMade: seq<Node>
    var numNodes: int
    var jobs: seq<Job>
    var held: seq<Job>
    var nJobs: int
    var nLocal: int
    var jobFull: bool
    var errors: nat
    var aborting: bool
    var events: nat            // children reported so far
    ghost var mode: Mode
    ghost var order: seq<Node>
    ghost var log: seq<Ran>
    ghost var refused: seq<Node>
    ghost var abandoned: seq<Node>

    ghost function Now(): State
      reads this
    {
      State(make, made, unmade, childMade, mtime, cmtime, cursor, ftime, toBeMade, numNodes,
        jobs, held, nJobs, nLocal, jobFull, errors, aborting, mode, order, log, refused, abandoned)
    }

    ghost predicate Valid()
      reads this
    {
      && Shaped(c) && 1 <= c.maxLocal <= c.maxJobs && Sized(c, Now()) && |atEnd| == c.size
      && (forall n :: 0 <= n < c.size ==> CursorOk(c.commands[n], cursor[n], atEnd[n]))
      && nJobs <= c.maxJobs && (jobFull <==> nJobs == c.maxJobs)
      && (errors > 0 && !c.keepgoing ==> aborting)
    }

    // -------------------------------------------------------------- make.c

    /** Make_TimeStamp. */
    method MakeTimeStamp(p: Node, n: Node)
      requires p < |cmtime| && n < |mtime|
      modifies `cmtime
      ensures cmtime == old(cmtime)[p := Max(old(cmtime)[p], mtime[n])]
    {
      if mtime[n] > cmtime[p] { cmtime := cmtime[p := mtime[n]]; }
    }

    /** The turn of the parent loop of Make_Update for the parent p. */
    method UpdateParent(n: Node, p: Node)
      requires Valid() && n < c.size && p < c.size
      modifies `unmade, `childMade, `cmtime, `toBeMade
      ensures Now() == Scheduler.UpdateParent(c, old(Now()), n, p) && Valid()
    {
      if make[p] {
        ghost var s := Now();
        CountChild(n, p);
        ParentTouches(c, s, n, p);
        assert Now() == Scheduler.UpdateParent(c, s, n, p);
      }
    }

    /** The same, for a parent that is to be made. */
    method CountChild(n: Node, p: Node)
      requires Valid() && n < c.size && p < c.size && make[p]
      modifies `unmade, `childMade, `cmtime, `toBeMade
      ensures var r := Scheduler.UpdateParent(c, old(Now()), n, p);
        unmade == r.unmade && childMade == r.childMade && cmtime == r.cmtime && toBeMade == r.toBeMade
    {
      unmade := unmade[p := unmade[p] - 1];
      if !c.attr[n].exec {
        if made[n].Remade? { childMade := childMade[p := true]; }
        MakeTimeStamp(p, n);
      }
      if unmade[p] == 0 { toBeMade := toBeMade + [p]; }
    }

    /** The turn of the successor loop of Make_Update for the successor x. */
    method WakeSuccessor(x: Node)
      requires Valid() && x < c.size
      modifies `toBeMade
      ensures toBeMade == Scheduler.WakeSuccessor(c, old(Now()), x).toBeMade
    {
      if make[x] && unmade[x] == 0 && made[x].Unmade? && x !in toBeMade {
        toBeMade := toBeMade + [x];
      }
    }

    /** The parent loop of Make_Update. */
    method UpdateParents(n: Node)
      requires Valid() && n < c.size
      modifies `unmade, `childMade, `cmtime, `toBeMade
      ensures Now() == Scheduler.UpdateParents(c, old(Now()), n, c.parents[n])
      ensures Valid()
    {
      var ps := c.parents[n];
      ghost var s0 := Now();
      var i := 0;
      SuffixesWithin(ps, c.size);
      while i < |ps|
        invariant 0 <= i <= |ps| && Valid()
        invariant Scheduler.UpdateParents(c, Now(), n, ps[i..]) == Scheduler.UpdateParents(c, s0, n, ps)
      {
        ghost var s := Now();
        ParentTurn(c, s, n, ps, i);
        UpdateParent(n, ps[i]);
        i := i + 1;
      }
    }

    /** The successor loop of Make_Update. */
    method WakeSuccessors(n: Node)
      requires Valid() && n < c.size
      modifies `toBeMade
      ensures Now() == Scheduler.WakeSuccessors(c, old(Now()), c.successors[n])
      ensures Valid()
    {
      var succs := c.successors[n];
      ghost var s0 := Now();
      var i := 0;
      SuffixesWithin(succs, c.size);
      while i < |succs|
        invariant 0 <= i <= |succs| && Valid()
        invariant Scheduler.WakeSuccessors(c, Now(), succs[i..]) == Scheduler.WakeSuccessors(c, s0, succs)
      {
        ghost var s := Now();
        SuccessorTurn(c, s, succs, i);
        WakeSuccessor(succs[i]);
        assert Now() == Scheduler.WakeSuccessor(c, s, succs[i]);
        i := i + 1;
      }
    }

    /** Make_Update. */
    method MakeUpdate(n: Node)
      requires Valid() && n < c.size
      modifies `unmade, `childMade, `cmtime, `mtime, `toBeMade
      ensures Now() == Scheduler.MakeUpdate(c, old(Now()), n)
      ensures Valid()
    {
      ghost var s := Now();
      if !made[n].UpToDate? {
        mtime := mtime[n := if ftime[n] == 0 then c.now else ftime[n]];
        assert Now() == Recheck(c, s, n);
      }
      UpdateParents(n);
      WakeSuccessors(n);
    }

    // --------------------------------------------------------------- job.c

    /** The cursor of JobMakeArgv: take the next command, if there is one that is not blank. */
    method JobMakeArgv(job: Job) returns (runs: bool, flagged: Job)
      requires Valid() && job.node < c.size
      modifies `cursor, `atEnd
      ensures |cursor| == |atEnd| == c.size
      ensures forall n :: 0 <= n < c.size ==> CursorOk(c.commands[n], cursor[n], atEnd[n])
      ensures cursor == ReadOne(c, old(Now()), job)
      ensures NextCommand(old(Now()), job) >= |c.commands[job.node]| ==> atEnd[job.node]
      ensures runs == Ready(c, old(Now()), job)
      ensures runs ==> flagged == Flagged(c, old(Now()), job)
    {
      var n := job.node;
      var k := if job.first then 0 else cursor[n];
      flagged := job;
      if k < |c.commands[n]| {
        cursor := cursor[n := k + 1];
        atEnd := atEnd[n := |c.commands[n]| == 1];
        runs := !c.commands[n][k].blank;
        if runs { flagged := job.(ignerr := job.ignerr || c.commands[n][k].dash); }
      } else {
        atEnd := atEnd[n := true];
        runs := false;
      }
    }

    /** The end of JobExec: the job has been forked and enters the table. */
    method EnterTable(job: Job)
      requires Valid() && job.node < c.size && nJobs < c.maxJobs
      modifies `jobs, `nJobs, `nLocal, `jobFull
      ensures var r := Launch(c, old(Now()), job);
        jobs == r.jobs && nJobs == r.nJobs && nLocal == r.nLocal && jobFull == r.jobFull
    {
      nJobs := nJobs + 1;
      if !job.remote { nLocal := nLocal + 1; }
      jobs := jobs + [job];
      if nJobs == c.maxJobs { jobFull := true; }
    }

    /** The fork of JobExec. */
    method Fork(job: Job)
      requires Valid() && job.node < c.size && nJobs < c.maxJobs
      modifies `jobs, `nJobs, `nLocal, `jobFull
      ensures Now() == Launch(c, old(Now()), job)
      ensures Valid()
    {
      EnterTable(job);
    }

    /** JobExec. */
    method JobExec(job: Job)
      requires Valid() && job.node < c.size && nJobs < c.maxJobs
      modifies this
      ensures Valid()
      ensures Now() == Executed(c, old(Now()), job)
      decreases Slack(Now()), Unread(c, Now(), job) + 1, 0
    {
      ghost var s := Now();
      ExecOneCommand(c, s, job);
      var runs, flagged := JobMakeArgv(job);
      assert Now() == s.(cursor := ReadOne(c, s, job));
      if runs {
        Fork(flagged);
      } else {
        JobFinish(job, false);
      }
    }

    /** JobStart for a node whose commands have been checked. */
    method JobStart(job: Job)
      requires Valid() && job.node < c.size
      modifies this
      ensures Valid()
      ensures var s := old(Now()); var r := Scheduler.JobStart(c, s, job);
        Now() == if s.nJobs < c.maxJobs && !Ready(c, s, job) then RestartAll(c, r) else r
      decreases Slack(Now()), Unread(c, Now(), job) + 1, 1
    {
      if nJobs >= c.maxJobs {
        jobFull := true;
        held := held + [job.(restart := true)];
      } else {
        JobExec(job.(remote := nLocal >= c.maxLocal));
      }
    }

    /** What JobFinish does with a failure that counts. */
    method FailJob(n: Node)
      requires Valid() && n < c.size
      modifies `made, `errors, `aborting
      ensures Now() == Fail(c, old(Now()), n)
      ensures Valid()
    {
      made := made[n := if aborting then Aborted else Failed];
      errors := errors + 1;
      aborting := aborting || !c.keepgoing;
    }

    /** What JobFinish does when the last command has ended well. */
    method CompleteJob(n: Node)
      requires Valid() && n < c.size
      modifies `made, `mtime, `unmade, `childMade, `cmtime, `toBeMade, `abandoned
      ensures Now() == Complete(c, old(Now()), n)
      ensures Valid()
    {
      if !aborting {
        made := made[n := Remade];
        MakeUpdate(n);
      } else {
        abandoned := abandoned + [n];
      }
    }

    /** What JobFinish does to the job itself. */
    method SettleJob(job: Job, failed: bool)
      requires Valid() && job.node < c.size && nJobs < c.maxJobs
      modifies this
      ensures Valid()
      ensures var s := old(Now()); var r := if failed then Fail(c, s, job.node) else Scheduler.JobStart(c, s, Renew(c, job));
        && RestartAll(c, Now()) == RestartAll(c, r)
        && Slack(Now()) <= Slack(s)
      decreases Slack(Now()), if failed || atEnd[job.node] then 0 else Unread(c, Now(), Renew(c, job)) + 1, 2
    {
      ghost var s := Now();
      if failed {
        FailJob(job.node);
      } else if !atEnd[job.node] {
        JobStart(Renew(c, job));
        RestartAllTwice(c, Scheduler.JobStart(c, s, Renew(c, job)));
      } else {
        assert Scheduler.JobStart(c, s, Renew(c, job)) == Complete(c, s, job.node);
        CompleteJob(job.node);
      }
    }

    /** The loop of JobFinish over the hold queue. */
    method RestartJobs()
      requires Valid()
      modifies this
      ensures Valid() && Now() == RestartAll(c, old(Now()))
      ensures Slack(Now()) <= Slack(old(Now()))
      decreases Slack(Now()), 0, 1
    {
      ghost var s := Now();
      while errors == 0 && !jobFull && held != []
        invariant Valid() && RestartAll(c, Now()) == RestartAll(c, s) && Slack(Now()) <= Slack(s)
        decreases Slack(Now())
      {
        var job := held[0];
        held := held[1..];
        JobRestart(job);
      }
    }

    /** JobRestart for a job taken from the hold queue. */
    method JobRestart(job: Job)
      requires Valid() && job.node < c.size && (jobFull ==> nLocal >= c.maxLocal)
      modifies this
      ensures Valid()
      ensures var s := old(Now());
        && RestartAll(c, Now()) == RestartAll(c, Scheduler.JobRestart(c, s.(held := [job] + s.held)))
        && Slack(Now()) <= Slack(s)
      decreases Slack(Now()) + 1, 0, 0
    {
      RestartOneJob(c, Now(), job);
      if nLocal >= c.maxLocal {
        if nJobs >= c.maxJobs {
          held := [job] + held;
          jobFull := true;
        } else {
          ExecutedSlack(c, Now(), job.(remote := true));
          JobExec(job.(remote := true));
        }
      } else {
        ExecutedSlack(c, Now(), job.(remote := false));
        JobExec(job.(remote := false));
      }
    }

    /** JobFinish. */
    method JobFinish(job: Job, failed: bool)
      requires Valid() && job.node < c.size && nJobs < c.maxJobs
      modifies this
      ensures Valid()
      ensures var s := old(Now());
        Now() == RestartAll(c, if failed then Fail(c, s, job.node) else Scheduler.JobStart(c, s, Renew(c, job)))
      decreases Slack(Now()), if failed || atEnd[job.node] then 0 else Unread(c, Now(), Renew(c, job)) + 1, 3
    {
      SettleJob(job, failed);
      RestartJobs();
    }

    /** Job_CheckCommands looks for the file of a node without commands. */
    method CheckCommands(n: Node) returns (ok: bool)
      requires Valid() && n < c.size
      modifies `mtime
      ensures Now() == Scheduler.CheckCommands(c, old(Now()), n)
      ensures ok == !Unmakeable(c, Now(), n)
    {
      ok := true;
      if c.attr[n].Nop() && c.commands[n] == [] {
        mtime := mtime[n := ftime[n]];
        if mtime[n] == 0 { ok := c.attr[n].optional; }
      }
    }

    /** JobStart for a new job, once its commands have been checked. */
    method FirstStart(n: Node)
      requires Valid() && n < c.size && !Pending(Now())
      modifies this
      ensures Valid() && aborting == old(aborting)
      ensures Now() == Scheduler.JobStart(c, old(Now()), Job(n, true, false, false, c.attr[n].ignore))
    {
      StartLeavesNonePending(c, Now(), Job(n, true, false, false, c.attr[n].ignore));
      JobStart(Job(n, true, false, false, c.attr[n].ignore));
    }

    /** JobStart without a way to make the node: an error with -k, and the end without. */
    method Refuse(n: Node) returns (died: bool)
      requires Valid()
      modifies `refused, `mode
      ensures Now() == old(Now()).(refused := old(refused) + [n], mode := if c.keepgoing then Checking else Dead)
      ensures Valid() && died == mode.Dead?
    {
      died := !c.keepgoing;
      refused, mode := refused + [n], if c.keepgoing then Checking else Dead;
    }

    /** Job_Make: false if no more jobs are to be started; without -k, a node that there is no way
      * to make ends the program. */
    method JobMake(n: Node) returns (ok: bool, died: bool)
      requires Valid() && n < c.size && !Pending(Now()) && mode.Filling?
      modifies this
      ensures Now() == Scheduler.JobMake(c, old(Now()), n)
      ensures Valid() && (ok <==> mode.Filling?) && (died <==> mode.Dead?)
    {
      ghost var s := Now();
      ok := CheckCommands(n);
      died := false;
      if ok {
        FirstStart(n);
        FirstStartKeepsMode(c, s, n);
        ok := !aborting;
        mode := if ok then Filling else Checking;
      } else {
        died := Refuse(n);
      }
    }

    // -------------------------------------------------------------- make.c

    /** Make_TimeStamp for every parent of n. */
    method StampParents(n: Node)
      requires Valid() && n < c.size
      modifies `cmtime
      ensures |old(cmtime)| == c.size && Within(c.parents[n], c.size)
      ensures cmtime == StampAll(old(cmtime), mtime[n], c.parents[n])
    {
      var ps := c.parents[n];
      var i := 0;
      SuffixesWithin(ps, c.size);
      while i < |ps|
        invariant 0 <= i <= |ps| && |cmtime| == c.size
        invariant StampAll(cmtime, mtime[n], ps[i..]) == StampAll(old(cmtime), mtime[n], ps)
      {
        assert ps[i..][0] == ps[i] && ps[i..][1..] == ps[i + 1..];
        MakeTimeStamp(ps[i], n);
        i := i + 1;
      }
    }

    /** Make_OODate. */
    method OODate(n: Node) returns (out: bool)
      requires Valid() && n < c.size
      modifies `mtime, `cmtime
      ensures var s := LookUp(c, old(Now()), n);
        && out == IsOut(c, s, n)
        && Now() == if out then s else s.(cmtime := StampAll(s.cmtime, s.mtime[n], c.parents[n]))
      ensures Valid()
    {
      var a := c.attr[n];
      if !a.join && !a.exec { mtime := mtime[n := ftime[n]]; }
      if a.join {
        out := childMade[n];
      } else if a.force || a.exec {
        out := true;
      } else {
        out := mtime[n] < cmtime[n] || (cmtime[n] == 0 && (mtime[n] == 0 || a.doubleDep));
      }
      ghost var s := LookUp(c, old(Now()), n);
      assert Now() == s && out == IsOut(c, s, n);
      if !out { StampParents(n); }
    }

    /** The look at the predecessors in MakeStartJobs. */
    method PredecessorUnmade(n: Node) returns (found: bool)
      requires Valid() && n < c.size
      ensures found == Blocked(c, Now(), n)
    {
      var i := 0;
      while i < |c.preds[n]|
        invariant 0 <= i <= |c.preds[n]|
        invariant forall j :: 0 <= j < i ==> !(make[c.preds[n][j]] && made[c.preds[n][j]].Unmade?)
      {
        if make[c.preds[n][i]] && made[c.preds[n][i]].Unmade? { return true; }
        i := i + 1;
      }
      found := false;
    }

    method MarkUpToDate(n: Node)
      requires Valid() && n < c.size
      modifies `made
      ensures Now() == old(Now()).(made := old(made)[n := UpToDate])
      ensures Valid()
    {
      made := made[n := UpToDate];
    }

    /** What MakeStartJobs does with a node that nothing holds back. */
    method JudgeNode(n: Node) returns (ok: bool, died: bool)
      requires Valid() && n < c.size && !Pending(Now()) && mode.Filling?
      modifies this
      ensures Now() == Judge(c, LookUp(c, old(Now()), n), n)
      ensures Valid() && (ok <==> mode.Filling?) && (died <==> mode.Dead?)
    {
      var out := OODate(n);
      if out {
        ok, died := JobMake(n);
      } else {
        MarkUpToDate(n);
        MakeUpdate(n);
        ok, died := true, false;
      }
    }

    /** Take the head of the queue, and see whether a predecessor holds it back. */
    method TakeNext() returns (n: Node, found: bool)
      requires Valid() && toBeMade != []
      modifies `toBeMade, `numNodes, `order
      ensures n == old(toBeMade[0]) && n < c.size && found == Blocked(c, old(Now()), n)
      ensures Now() == Taken(old(Now()), found)
      ensures Valid()
    {
      n := toBeMade[0];
      found := PredecessorUnmade(n);
      toBeMade := toBeMade[1..];
      if !found { numNodes, order := numNodes - 1, order + [n]; }
    }

    /** A turn of the loop of MakeStartJobs. */
    method ExamineNext() returns (ok: bool, died: bool)
      requires Valid() && toBeMade != [] && !Pending(Now()) && mode.Filling?
      modifies this
      ensures Now() == Examine(c, old(Now()))
      ensures Valid() && (ok <==> mode.Filling?) && (died <==> mode.Dead?)
    {
      ExamineTaken(c, Now());
      var n, found := TakeNext();
      ok, died := true, false;
      if !found { ok, died := JudgeNode(n); }
    }

    // ------------------------------------------------------ the main loop

    /** Does a command of node n leave its file with the same time in every run? */
    ghost predicate Repeatable(post: seq<int>) {
      |post| == c.size && forall k: nat, n: Node :: n < c.size ==> stamp(k, n) == post[n]
    }

    /** Does no command fail?  It exits, and with an error only if it has a '-' or the node is .IGNORE. */
    ghost predicate Sound() {
      Shaped(c) && forall k: nat, n: Node, j: nat :: n < c.size && 1 <= j <= |c.commands[n]| && !c.commands[n][j - 1].blank ==>
        status(k, n, j).Exited? && (status(k, n, j).code == 0 || c.commands[n][j - 1].dash || c.attr[n].ignore)
    }

    ghost predicate Running(o: Origin)
      reads this
    {
      Valid() && Reached(c, o, Now()) && (o.repeatable ==> Repeatable(o.post)) && (o.sound ==> Sound())
    }

    /** A turn of the loop of MakeStartJobs is a step of the machine. */
    method ExamineStep(ghost o: Origin) returns (ok: bool, died: bool)
      requires Running(o) && mode.Filling? && toBeMade != []
      modifies this
      ensures Running(o) && (ok <==> mode.Filling?) && (died <==> mode.Dead?)
      ensures (ok || died || mode.Checking?) && !Pending(Now())
      ensures T.Below(c, Now(), old(Now())) && old(numNodes) >= 0
    {
      ghost var s := Now();
      NotPendingInFilling(c, s);
      ReachStep(c, o, s, DoExamine);
      ExamineModes(c, s);
      ok, died := ExamineNext();
    }

    /** MakeStartJobs leaves its loop. */
    ghost method LeaveFilling(o: Origin)
      requires Running(o) && mode.Filling? && toBeMade == []
      modifies `mode
      ensures Running(o) && mode.Checking? && T.Below(c, Now(), old(Now()))
    {
      NotPendingInFilling(c, Now());
      ReachStep(c, o, Now(), EndFilling);
      mode := Checking;
    }

    /** MakeStartJobs. */
    method MakeStartJobs(ghost o: Origin) returns (died: bool)
      requires Running(o) && mode.Filling?
      modifies this
      ensures Running(o) && (if died then mode.Dead? else mode.Checking?) && !Pending(Now())
      ensures T.Below(c, Now(), old(Now()))
    {
      NotPendingInFilling(c, Now());
      var ok := true;
      died := false;
      while toBeMade != [] && ok
        invariant Running(o) && (ok <==> mode.Filling?) && (died <==> mode.Dead?)
        invariant (ok || died || mode.Checking?) && !Pending(Now())
        invariant Now() == old(Now()) || T.Below(c, Now(), old(Now()))
        invariant !ok ==> T.Below(c, Now(), old(Now()))
        decreases numNodes, T.Work(c, Now()), |toBeMade|, T.Rank(Now())
      {
        ok, died := ExamineStep(o);
      }
      if ok { LeaveFilling(o); }
    }

    /** Job_CatchChildren takes the i-th running job out of the table. */
    method TakeOut(i: nat)
      requires Valid() && i < |jobs|
      modifies `jobs, `nJobs, `nLocal, `jobFull
      ensures Now() == Scheduler.TakeOut(old(Now()), i)
    {
      var job := jobs[i];
      jobs := jobs[..i] + jobs[i + 1..];
      nJobs := nJobs - 1;
      nLocal := if job.remote then nLocal else nLocal - 1;
      jobFull := false;
    }

    /** The i-th running job has ended: its file has the given time now. */
    method EndJob(i: nat, how: Status, time: int)
      requires Valid() && i < |jobs|
      modifies `jobs, `nJobs, `nLocal, `jobFull, `ftime, `log
      ensures Now() == Ended(old(Now()), i, how, time)
      ensures nJobs < c.maxJobs && Valid()
    {
      var job := jobs[i];
      EndedSized(c, Now(), i, how, time);
      TakeOut(i);
      ftime := ftime[job.node := time];
      log := log + [Ran(job.node, cursor[job.node], how)];
    }

    /** waitpid reports that the i-th running job has ended. */
    method Reap(i: nat, how: Status, time: int)
      requires Valid() && i < |jobs|
      modifies this
      ensures Valid() && Now() == RestartAll(c, Exit(c, old(Now()), i, how, time))
    {
      var job := jobs[i];
      EndJob(i, how, time);
      JobFinish(job, Counts(how, job));
    }

    /** waitpid: a child that has ended, and how. */
    method WaitPid(ghost o: Origin) returns (i: nat, how: Status, time: int)
      requires Running(o) && jobs != []
      modifies `events
      ensures Running(o) && Now() == old(Now()) && numNodes >= 0 && i < |jobs|
      ensures o.repeatable ==> time == o.post[jobs[i].node]
      ensures o.sound ==> !Counts(how, jobs[i])
    {
      var n;
      i := which(events) % |jobs|;
      n := jobs[i].node;
      how, time := status(events, n, cursor[n]), stamp(events, n);
      RunningCommand(c, Now(), i, how);
      NumNodesNotNegative(c, Now());
      events := events + 1;
    }

    /** A turn of the loop of Job_CatchChildren: waitpid reports a child. */
    method CatchStep(ghost o: Origin)
      requires Running(o) && mode.Catching? && !Pending(Now()) && jobs != []
      modifies this
      ensures Running(o) && mode.Catching? && !Pending(Now())
      ensures T.Below(c, Now(), old(Now())) && old(numNodes) >= 0
    {
      var i, how, time := WaitPid(o);
      ReachExit(c, o, Now(), i, how, time);
      Reap(i, how, time);
    }

    /** Job_CatchChildren finds no child left. */
    ghost method LeaveCatching(o: Origin)
      requires Running(o) && mode.Catching? && !Pending(Now()) && jobs == []
      modifies `mode
      ensures Running(o) && mode.Filling? && T.Below(c, Now(), old(Now()))
    {
      ReachStep(c, o, Now(), EndCatching);
      mode := Filling;
    }

    /** Job_CatchChildren: waitpid blocks, so it goes on until no child is left. */
    method CatchChildren(ghost o: Origin)
      requires Running(o) && mode.Catching? && !Pending(Now())
      modifies this
      ensures Running(o) && mode.Filling? && T.Below(c, Now(), old(Now()))
    {
      while jobs != []
        invariant Running(o) && mode.Catching? && !Pending(Now())
        invariant Now() == old(Now()) || T.Below(c, Now(), old(Now()))
        decreases numNodes, T.Work(c, Now()), |toBeMade|, T.Rank(Now())
      {
        CatchStep(o);
      }
      LeaveCatching(o);
    }

    /** The loop of Job_Empty over the hold queue. */
    method RestartHeldJobs()
      requires Valid()
      modifies this
      ensures Valid() && Now() == RestartHeld(c, old(Now()))
    {
      ghost var s := Now();
      while !jobFull && held != []
        invariant Valid() && RestartHeld(c, Now()) == RestartHeld(c, s)
        decreases Slack(Now())
      {
        ghost var before := Now();
        var job := held[0];
        held := held[1..];
        JobRestart(job);
        RestartedAlike(c, before, Now());
      }
    }

    /** Job_Empty finds no job running, but some held. */
    method EnterRestarting(ghost o: Origin)
      requires Running(o) && mode.Checking? && nJobs == 0 && held != [] && !aborting
      modifies `jobFull, `mode
      ensures Running(o) && mode.Restarting? && T.Below(c, Now(), old(Now()))
    {
      ReachStep(c, o, Now(), Check);
      jobFull, mode := false, Restarting;
      assert Now() == JobEmpty(old(Now()));
    }

    ghost method LeaveRestarting(o: Origin)
      requires Running(o) && mode.Restarting? && (jobFull || held == [])
      modifies `mode
      ensures Running(o) && mode.Catching? && !Pending(Now()) && T.Below(c, Now(), old(Now()))
    {
      ReachStep(c, o, Now(), EndRestarting);
      mode := Catching;
    }

    /** Job_Empty with no job running, but some held. */
    method RestartWave(ghost o: Origin)
      requires Running(o) && mode.Checking? && nJobs == 0 && held != [] && !aborting
      modifies this
      ensures Running(o) && mode.Catching? && !Pending(Now()) && T.Below(c, Now(), old(Now()))
    {
      EnterRestarting(o);
      ReachRestartHeld(c, o, Now());
      RestartHeldJobs();
      LeaveRestarting(o);
    }

    /** Job_Empty. */
    method IsJobTableEmpty(ghost o: Origin) returns (empty: bool)
      requires Running(o) && mode.Checking? && !Pending(Now())
      modifies this
      ensures Running(o) && T.Below(c, Now(), old(Now()))
      ensures if empty then mode.Finished? else mode.Catching? && !Pending(Now())
    {
      if nJobs == 0 && held != [] && !aborting {
        RestartWave(o);
        empty := false;
      } else {
        ReachStep(c, o, Now(), Check);
        empty := nJobs == 0;
        mode := if empty then Finished else Catching;
      }
    }

    /** The state before Make_Run. */
    ghost predicate Fresh()
      reads this
    {
      NothingDone() && toBeMade == [] && numNodes == 0 && forall x :: 0 <= x < c.size ==> !make[x]
    }

    /** No node is made and no job exists. */
    ghost predicate NothingDone()
      reads this
    {
      && Valid() && WellFormed(c)
      && (forall x :: 0 <= x < c.size ==>
            made[x].Unmade? && unmade[x] == |c.children[x]| && mtime[x] == cmtime[x] == 0 && !childMade[x])
      && jobs == held == [] && nJobs == nLocal == 0 && errors == 0 && !aborting && mode.Filling?
      && order == refused == abandoned == [] && log == []
    }

    constructor (c: Config, which: nat -> nat, status: (nat, Node, nat) -> Status, stamp: (nat, Node) -> int, files: seq<int>)
      requires WellFormed(c) && |files| == c.size
      ensures this.c == c && this.which == which && this.status == status && this.stamp == stamp
      ensures ftime == files && Fresh()
    {
      this.c, this.which, this.status, this.stamp := c, which, status, stamp;
      make, made := seq(c.size, _ => false), seq(c.size, _ => Unmade);
      unmade := seq(c.size, i requires 0 <= i < c.size => |c.children[i]|);
      childMade, mtime, cmtime := seq(c.size, _ => false), seq(c.size, _ => 0), seq(c.size, _ => 0);
      cursor, atEnd := seq(c.size, i requires 0 <= i < c.size => |c.commands[i]|), seq(c.size, _ => true);
      ftime := files;
      toBeMade, numNodes, jobs, held, nJobs, nLocal, jobFull := [], 0, [], [], 0, 0, false;
      errors, aborting, events := 0, false, 0;
      mode, order, log, refused, abandoned := Filling, [], [], [], [];
    }

    /** MakeAddChild for every child of n. */
    method AddChildren(n: Node, examine: seq<Node>) returns (r: seq<Node>)
      requires Valid() && n < c.size && Within(examine, c.size)
      ensures Within(r, c.size) && examine <= r
      ensures forall y :: y in r ==> y in examine || y in c.children[n]
      ensures forall y :: y in c.children[n] ==> y < c.size && (make[y] || y in r)
    {
      r := examine;
      var i := 0;
      while i < |c.children[n]|
        invariant 0 <= i <= |c.children[n]| && Within(r, c.size) && examine <= r
        invariant forall y :: y in r ==> y in examine || y in c.children[n]
        invariant forall j :: 0 <= j < i ==> make[c.children[n][j]] || c.children[n][j] in r
      {
        var y := c.children[n][i];
        if !make[y] { r := r + [y]; }
        i := i + 1;
      }
    }

    /** The downward pass of Make_Run has the nodes `examine` still to look at. */
    ghost predicate Marking(targets: seq<Node>, examine: seq<Node>)
      reads this
    {
      NothingDone() && Frontier(c, targets, make, examine) && LeavesQueued(c, make, toBeMade, numNodes)
    }

    /** The downward pass of Make_Run marks a node. */
    method MarkNode(n: Node, examine: seq<Node>) returns (r: seq<Node>)
      requires NothingDone() && n < c.size && Within(examine, c.size)
      modifies `make, `numNodes, `toBeMade
      ensures NothingDone() && make == old(make)[n := true] && numNodes == old(numNodes) + 1
      ensures toBeMade == if c.children[n] == [] then old(toBeMade) + [n] else old(toBeMade)
      ensures Within(r, c.size) && examine <= r
      ensures forall y :: y in r ==> y in examine || y in c.children[n]
      ensures forall y :: y in c.children[n] ==> y < c.size && (make[y] || y in r)
    {
      make, numNodes := make[n := true], numNodes + 1;
      if unmade[n] != 0 {
        r := AddChildren(n, examine);
      } else {
        r := examine;
        toBeMade := toBeMade + [n];
      }
    }

    /** A turn of that loop: the first node is marked, unless it has been marked already. */
    method MarkTurn(targets: seq<Node>, examine: seq<Node>) returns (r: seq<Node>)
      requires examine != [] && Marking(targets, examine)
      modifies `make, `numNodes, `toBeMade
      ensures Marking(targets, r)
      ensures |Marked(old(make))| <= c.size && |Marked(make)| <= c.size
      ensures |Marked(make)| > |Marked(old(make))| || (make == old(make) && |r| < |examine|)
    {
      var n := examine[0];
      MarkedBounded(make);
      assert [n] + examine[1..] == examine;
      if make[n] {
        FrontierSkips(c, targets, make, examine);
        r := examine[1..];
      } else {
        r := MarkFirst(targets, n, examine[1..]);
      }
    }

    method MarkFirst(targets: seq<Node>, n: Node, rest: seq<Node>) returns (r: seq<Node>)
      requires Marking(targets, [n] + rest) && n < c.size && !make[n]
      modifies `make, `numNodes, `toBeMade
      ensures Marking(targets, r) && |Marked(old(make))| < |Marked(make)| <= c.size
    {
      assert Within(rest, c.size) by { assert rest == ([n] + rest)[1..]; }
      LeafQueued(c, make, toBeMade, numNodes, n);
      r := MarkNode(n, rest);
      FrontierMoves(c, targets, old(make), rest, n, r);
      MarkedBounded(make);
    }

    /** The downward pass of Make_Run. */
    method MarkGraph(targets: seq<Node>)
      requires Fresh() && Within(targets, c.size)
      modifies `make, `numNodes, `toBeMade
      ensures Valid() && Initial(c, Now()) && Compat.MarksReachable(c, targets, make)
    {
      var examine := targets;
      FrontierStarts(c, targets, make);
      assert Marked(make) == {};
      while examine != []
        invariant Marking(targets, examine)
        decreases c.size - |Marked(make)|, |examine|
      {
        examine := MarkTurn(targets, examine);
      }
      FrontierEmpty(c, targets, make);
    }

    /** Job_Empty, and then Job_CatchChildren and MakeStartJobs: a turn of the main loop. */
    method Turn(ghost o: Origin) returns (died: bool)
      requires Running(o) && mode.Catching? && !Pending(Now())
      modifies this
      ensures Running(o) && (if died then mode.Dead? else mode.Checking?) && !Pending(Now())
      ensures T.Below(c, Now(), old(Now()))
    {
      CatchChildren(o);
      died := MakeStartJobs(o);
    }

    /** The main loop of Make_Run. */
    method MainLoop(ghost o: Origin) returns (died: bool)
      requires Running(o) && mode.Filling?
      modifies this
      ensures Running(o) && (if died then mode.Dead? else mode.Finished?)
    {
      died := MakeStartJobs(o);
      if died { return; }
      var empty := IsJobTableEmpty(o);
      while !empty && !died
        invariant Running(o) && (died <==> mode.Dead?) && (empty <==> mode.Finished?)
        invariant !empty && !died ==> mode.Catching? && !Pending(Now())
        decreases numNodes, T.Work(c, Now()), |toBeMade|, T.Rank(Now())
      {
        NumNodesNotNegative(c, Now());
        died := Turn(o);
        if !died { empty := IsJobTableEmpty(o); }
      }
    }

    /** Make_Run: whatever the children do, it comes to an end; it marks what the targets need, and
      * if nothing fails, what is left over tells whether there is a cycle. */
    method Run(targets: seq<Node>, ghost post: seq<int>) returns (died: bool)
      requires Fresh() && Within(targets, c.size)
      modifies this
      ensures Compat.MarksReachable(c, targets, make)
      ensures Reachable(c, Now()) && (if died then mode.Dead? else mode.Finished?)
      ensures Repeatable(post) ==> ReachedWith(c, old(ftime), post, Now())
      ensures Sound() ==> errors == 0
      ensures !died && errors == 0 && refused == [] ==>
        && (numNodes != 0 <==> Cyclic(c, make))
        && (numNodes == 0 ==> forall x :: 0 <= x < c.size && make[x] ==> Settled(made[x]))
    {
      ghost var ft0 := ftime;
      MarkGraph(targets);
      ghost var o := Origin(make, ft0, post, Repeatable(post), Sound());
      ReachStart(c, o, Now());
      died := MainLoop(o);
      if !died && errors == 0 && refused == [] { CycleTheorem(c, Now()); }
    }
  }
}
