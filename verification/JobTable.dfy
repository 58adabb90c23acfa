/** The bounded job table and the hold queue: who is where, and how many run. */
module JobTable {
  import opened Graph
  import opened Scheduler
  import opened Protocol

  function NodesOf(jobs: seq<Job>): multiset<Node> {
    if jobs == [] then multiset{} else multiset{jobs[0].node} + NodesOf(jobs[1..])
  }

  /** The number of jobs that run on this machine. */
  function Locals(jobs: seq<Job>): (k: nat)
    ensures k <= |jobs|
  {
    if jobs == [] then 0 else (if jobs[0].remote then 0 else 1) + Locals(jobs[1..])
  }

  lemma {:induction false} AppendJob(jobs: seq<Job>, job: Job)
    ensures NodesOf(jobs + [job]) == NodesOf(jobs) + multiset{job.node}
    ensures Locals(jobs + [job]) == Locals(jobs) + if job.remote then 0 else 1
  {
    if jobs == [] {
      assert [] + [job] == [job];
      assert NodesOf([job]) == multiset{job.node};
    } else {
      assert (jobs + [job])[1..] == jobs[1..] + [job];
      AppendJob(jobs[1..], job);
    }
  }

  lemma {:induction false} RemoveJob(jobs: seq<Job>, i: nat)
    requires i < |jobs|
    ensures NodesOf(jobs) == NodesOf(jobs[..i] + jobs[i + 1..]) + multiset{jobs[i].node}
    ensures Locals(jobs) == Locals(jobs[..i] + jobs[i + 1..]) + if jobs[i].remote then 0 else 1
  {
    if i == 0 {
      assert jobs[..0] + jobs[1..] == jobs[1..];
    } else {
      RemoveJob(jobs[1..], i - 1);
      assert (jobs[..i] + jobs[i + 1..])[1..] == jobs[1..][..i - 1] + jobs[1..][i..];
    }
  }

  /** The part of the state that belongs to the jobs. */
  datatype Table = Table(
    jobs: seq<Job>,
    held: seq<Job>,
    refused: seq<Node>,
    abandoned: seq<Node>,
    nJobs: int,
    nLocal: int,
    jobFull: bool,
    cursor: seq<nat>)

  function TableOf(s: State): Table {
    Table(s.jobs, s.held, s.refused, s.abandoned, s.nJobs, s.nLocal, s.jobFull, s.cursor)
  }

  /** Everything an examined node can be: running, held, refused or abandoned. */
  function Claims(t: Table): multiset<Node> {
    NodesOf(t.jobs) + NodesOf(t.held) + multiset(t.refused) + multiset(t.abandoned)
  }

  /** An examined node without a verdict is in exactly one place, and only such a node is anywhere. */
  ghost predicate OnePlace(claims: multiset<Node>, order: seq<Node>, made: seq<Made>) {
    forall x: nat :: claims[x] == if x in order && x < |made| && made[x].Unmade? then 1 else 0
  }

  /** A job that has not read a command yet ignores errors exactly if its node does. */
  predicate Unflagged(c: Config, job: Job)
    requires Shaped(c)
  {
    job.node < c.size && (job.ignerr <==> c.attr[job.node].ignore)
  }

  /** A running job executes the last command it read, and ignores its errors exactly if the node does or
    * the command has a '-'. */
  predicate RunsCommand(c: Config, cursor: seq<nat>, job: Job)
    requires Shaped(c) && |cursor| == c.size
  {
    && job.node < c.size && 1 <= cursor[job.node] <= |c.commands[job.node]|
    && !c.commands[job.node][cursor[job.node] - 1].blank
    && (job.ignerr <==> c.attr[job.node].ignore || c.commands[job.node][cursor[job.node] - 1].dash)
  }

  ghost predicate TableOk(c: Config, t: Table) {
    && Shaped(c) && |t.cursor| == c.size
    && t.nJobs == |t.jobs| <= c.maxJobs
    && t.nLocal == Locals(t.jobs) <= c.maxLocal
    && (!t.jobFull ==> t.nJobs < c.maxJobs)
    && (forall j :: j in t.held ==> j.first && j.restart && Unflagged(c, j))
    && (forall j :: j in t.jobs ==> RunsCommand(c, t.cursor, j))
  }

  /** The invariant while the nodes in limbo have left one place and not yet reached the next. */
  ghost predicate Steady(c: Config, s: State, limbo: multiset<Node>) {
    && Sized(c, s) && Core(c, ProgressOf(s)) && TableOk(c, TableOf(s))
    && OnePlace(Claims(TableOf(s)) + limbo, s.order, s.made)
  }

  /** What starting or finishing one job leaves alone. */
  ghost predicate Frame(s: State, r: State) {
    && r.errors == s.errors && r.aborting == s.aborting && r.mode == s.mode
    && r.refused == s.refused && r.order == s.order && r.make == s.make && r.ftime == s.ftime && r.log == s.log
    && r.numNodes == s.numNodes && (s.jobFull ==> r.jobFull)
    && (r.jobFull || r.held == s.held)
    && (s.aborting || r.abandoned == s.abandoned)
    && |r.made| == |s.made|
    && (forall x :: 0 <= x < |r.made| && Lost(r.made[x]) ==> Lost(s.made[x]))
  }

  lemma {:induction false} WakeFrame(c: Config, s: State, succs: seq<Node>)
    requires Shaped(c) && Sized(c, s) && Within(succs, c.size)
    ensures WakeSuccessors(c, s, succs) == s.(toBeMade := WakeSuccessors(c, s, succs).toBeMade)
    decreases |succs|
  {
    if succs != [] {
      assert Within(succs[1..], c.size);
      WakeFrame(c, WakeSuccessor(c, s, succs[0]), succs[1..]);
    }
  }

  /** Make_Update changes the counters, the queue and the times, and nothing else. */
  lemma UpdateFrame(c: Config, s: State, n: Node)
    requires Shaped(c) && Sized(c, s) && n < c.size
    ensures var r := MakeUpdate(c, s, n);
      r == s.(unmade := r.unmade, childMade := r.childMade, cmtime := r.cmtime,
              mtime := r.mtime, toBeMade := r.toBeMade)
  {
    var s1 := Recheck(c, s, n);
    ParentsFrame(c, s1, n, c.parents[n]);
    WakeFrame(c, UpdateParents(c, s1, n, c.parents[n]), c.successors[n]);
  }

  lemma {:induction false} ExecFrame(c: Config, s: State, job: Job)
    requires Shaped(c) && Sized(c, s) && job.node < c.size
    ensures Frame(s, JobExec(c, s, job))
    decreases Unread(c, s, job), 0
  {
    var n, k := job.node, NextCommand(s, job);
    if k >= |c.commands[n]| {
      if !s.aborting { UpdateFrame(c, s.(made := s.made[n := Remade]), n); }
    } else if c.commands[n][k].blank {
      StartFrame(c, s.(cursor := s.cursor[n := k + 1]), Renew(c, job));
    }
  }

  lemma {:induction false} StartFrame(c: Config, s: State, job: Job)
    requires Shaped(c) && Sized(c, s) && job.node < c.size
    ensures Frame(s, JobStart(c, s, job))
    decreases Unread(c, s, job), 1
  {
    if s.nJobs < c.maxJobs {
      ExecFrame(c, s, job.(remote := s.nLocal >= c.maxLocal));
    }
  }

  lemma InLimbo(c: Config, s: State, n: Node)
    requires Steady(c, s, multiset{n})
    ensures n in s.order && n < c.size && s.made[n].Unmade?
    ensures forall j :: j in s.jobs ==> j.node != n
  {
    var claims := Claims(TableOf(s)) + multiset{n};
    assert claims[n] == 1 + Claims(TableOf(s))[n];
    forall j | j in s.jobs ensures j.node != n {
      var i :| 0 <= i < |s.jobs| && s.jobs[i] == j;
      RemoveJob(s.jobs, i);
      assert NodesOf(s.jobs)[j.node] >= 1;
      assert Claims(TableOf(s))[j.node] >= 1;
    }
  }

  /** A move that leaves the graph alone only has to account for the jobs. */
  lemma SameGraph(c: Config, s: State, limbo: multiset<Node>, r: State, limbo': multiset<Node>)
    requires Steady(c, s, limbo) && Sized(c, r) && ProgressOf(r) == ProgressOf(s)
    requires TableOk(c, TableOf(r)) && Claims(TableOf(r)) + limbo' == Claims(TableOf(s)) + limbo
    ensures Steady(c, r, limbo')
  {
    assert s.order == ProgressOf(s).order && s.made == ProgressOf(s).made;
    assert r.order == ProgressOf(r).order && r.made == ProgressOf(r).made;
  }

  // ------------------------------------------------------- one job's moves

  lemma LaunchKeeps(c: Config, s: State, job: Job)
    requires Steady(c, s, multiset{job.node}) && job.node < c.size
    requires s.nJobs < c.maxJobs && (job.remote || s.nLocal < c.maxLocal)
    requires RunsCommand(c, s.cursor, job)
    ensures Steady(c, Launch(c, s, job), multiset{})
  {
    var r := Launch(c, s, job);
    AppendJob(s.jobs, job);
    assert ProgressOf(r) == ProgressOf(s);
    assert Claims(TableOf(r)) + multiset{} == Claims(TableOf(s)) + multiset{job.node};
  }

  lemma HoldKeeps(c: Config, s: State, job: Job)
    requires Steady(c, s, multiset{job.node}) && Unflagged(c, job) && job.first
    ensures Steady(c, Hold(c, s, job), multiset{})
  {
    var r := Hold(c, s, job);
    AppendJob(s.held, job.(restart := true));
    assert ProgressOf(r) == ProgressOf(s);
    assert Claims(TableOf(r)) + multiset{} == Claims(TableOf(s)) + multiset{job.node};
  }

  /** Taking a node off the list of those without a verdict. */
  lemma Verdict(claims: multiset<Node>, order: seq<Node>, made: seq<Made>, n: Node, m: Made)
    requires OnePlace(claims + multiset{n}, order, made) && n < |made| && !m.Unmade?
    ensures OnePlace(claims + multiset{}, order, made[n := m])
  {
    forall x: nat ensures (claims + multiset{})[x] ==
        if x in order && x < |made| && made[n := m][x].Unmade? then 1 else 0
    {
      assert (claims + multiset{n})[x] == claims[x] + if x == n then 1 else 0;
    }
  }

  /** Settling touches the graph, not the table. */
  lemma SettleKeeps(c: Config, s: State, n: Node, s1: State)
    requires Steady(c, s, multiset{n}) && Sized(c, s1)
    requires s1 == s.(made := s1.made, mtime := s1.mtime, cmtime := s1.cmtime)
    requires n < c.size && Settled(s1.made[n]) && s1.made == s.made[n := s1.made[n]]
    ensures Steady(c, MakeUpdate(c, s1, n), multiset{})
  {
    InLimbo(c, s, n);
    SettleEffect(c, s, n, s1);
    var r := MakeUpdate(c, s1, n);
    SettleKeepsCore(c, ProgressOf(s), n, s1.made[n], ProgressOf(r));
    Verdict(Claims(TableOf(s)), s.order, s.made, n, s1.made[n]);
    assert TableOf(r) == TableOf(s);
  }

  lemma CompleteKeeps(c: Config, s: State, n: Node)
    requires Steady(c, s, multiset{n}) && n < c.size
    ensures Steady(c, Complete(c, s, n), multiset{})
  {
    if s.aborting {
      var r := Complete(c, s, n);
      assert ProgressOf(r) == ProgressOf(s);
      assert Claims(TableOf(r)) + multiset{} == Claims(TableOf(s)) + multiset{n};
    } else {
      SettleKeeps(c, s, n, s.(made := s.made[n := Remade]));
    }
  }

  lemma ReadTable(c: Config, t: Table, n: Node, k: nat)
    requires TableOk(c, t) && n < c.size && forall j :: j in t.jobs ==> j.node != n
    ensures TableOk(c, t.(cursor := t.cursor[n := k]))
  {
    forall j | j in t.jobs ensures RunsCommand(c, t.cursor[n := k], j) {
      assert RunsCommand(c, t.cursor, j);
    }
  }

  /** Reading a command moves only the cursor of a node that is not running. */
  lemma ReadKeeps(c: Config, s: State, n: Node, k: nat)
    requires Steady(c, s, multiset{n}) && n < c.size
    ensures Steady(c, s.(cursor := s.cursor[n := k]), multiset{n})
  {
    var r := s.(cursor := s.cursor[n := k]);
    InLimbo(c, s, n);
    ReadTable(c, TableOf(s), n, k);
    assert TableOf(r) == TableOf(s).(cursor := r.cursor);
    SameGraph(c, s, multiset{n}, r, multiset{n});
  }

  lemma ExecCompletes(c: Config, s: State, job: Job)
    requires Steady(c, s, multiset{job.node}) && job.node < c.size
    requires NextCommand(s, job) >= |c.commands[job.node]|
    ensures Steady(c, JobExec(c, s, job), multiset{})
  {
    assert JobExec(c, s, job) == Complete(c, s, job.node);
    CompleteKeeps(c, s, job.node);
  }

  lemma ExecLaunches(c: Config, s: State, n: Node, k: nat, job: Job)
    requires Steady(c, s, multiset{n}) && n < c.size && job.node == n
    requires s.nJobs < c.maxJobs && (job.remote || s.nLocal < c.maxLocal)
    requires k < |c.commands[n]| && !c.commands[n][k].blank
    requires job.ignerr <==> c.attr[n].ignore || c.commands[n][k].dash
    ensures Steady(c, Launch(c, s.(cursor := s.cursor[n := k + 1]), job), multiset{})
  {
    ReadKeeps(c, s, n, k + 1);
    LaunchKeeps(c, s.(cursor := s.cursor[n := k + 1]), job);
  }

  lemma {:induction false} ExecKeeps(c: Config, s: State, job: Job)
    requires Steady(c, s, multiset{job.node}) && Unflagged(c, job)
    requires s.nJobs < c.maxJobs && (job.remote || s.nLocal < c.maxLocal)
    ensures Steady(c, JobExec(c, s, job), multiset{})
    decreases Unread(c, s, job), 0
  {
    var n, k := job.node, NextCommand(s, job);
    if k >= |c.commands[n]| {
      ExecCompletes(c, s, job);
    } else if c.commands[n][k].blank {
      ReadKeeps(c, s, n, k + 1);
      StartKeeps(c, s.(cursor := s.cursor[n := k + 1]), Renew(c, job));
    } else {
      ExecLaunches(c, s, n, k, job.(ignerr := job.ignerr || c.commands[n][k].dash));
    }
  }

  lemma {:induction false} StartKeeps(c: Config, s: State, job: Job)
    requires Steady(c, s, multiset{job.node}) && Unflagged(c, job)
    requires s.nJobs < c.maxJobs || job.first
    ensures Steady(c, JobStart(c, s, job), multiset{})
    decreases Unread(c, s, job), 1
  {
    if s.nJobs >= c.maxJobs {
      HoldKeeps(c, s, job);
    } else {
      ExecKeeps(c, s, job.(remote := s.nLocal >= c.maxLocal));
    }
  }

  // ----------------------------------------------------- the whole machine

  ghost predicate Control(c: Config, s: State) {
    && (s.aborting <==> s.errors > 0 && !c.keepgoing)
    && (s.refused != [] ==> c.keepgoing || s.mode.Dead?)
    && (s.abandoned != [] ==> s.aborting)
    && (s.errors == 0 ==> forall x :: 0 <= x < |s.made| ==> !Lost(s.made[x]))
    && (s.mode.Filling? ==> !Pending(s))
    && (s.mode.Checking? ==> s.toBeMade == [] || s.aborting || s.refused != [])
    && (s.mode.Finished? ==>
          && s.jobs == [] && (s.held == [] || s.aborting)
          && (s.toBeMade == [] || s.aborting || s.refused != []))
  }

  ghost predicate Inv(c: Config, s: State) {
    Steady(c, s, multiset{}) && Control(c, s)
  }

  lemma EndedTable(c: Config, t: Table, i: nat, r: Table)
    requires TableOk(c, t) && i < |t.jobs|
    requires r == t.(jobs := t.jobs[..i] + t.jobs[i + 1..], nJobs := t.nJobs - 1,
      nLocal := if t.jobs[i].remote then t.nLocal else t.nLocal - 1, jobFull := false)
    ensures TableOk(c, r) && r.nJobs < c.maxJobs
    ensures Claims(r) + multiset{t.jobs[i].node} == Claims(t) + multiset{}
  {
    RemoveJob(t.jobs, i);
    assert forall j :: j in r.jobs ==> j in t.jobs;
  }

  /** A job that ends changes its table and nothing of the graph. */
  lemma EndedIs(c: Config, s: State, i: nat, status: Status, stamp: int)
    requires Sized(c, s) && i < |s.jobs| && s.jobs[i].node < c.size
    ensures var r, t := Ended(s, i, status, stamp), TableOf(s);
      && Sized(c, r) && ProgressOf(r) == ProgressOf(s)
      && TableOf(r) == t.(jobs := t.jobs[..i] + t.jobs[i + 1..], nJobs := t.nJobs - 1,
           nLocal := if t.jobs[i].remote then t.nLocal else t.nLocal - 1, jobFull := false)
  {
  }

  lemma EndedKeeps(c: Config, s: State, i: nat, status: Status, stamp: int)
    requires Steady(c, s, multiset{}) && i < |s.jobs|
    ensures var r := Ended(s, i, status, stamp);
      Steady(c, r, multiset{s.jobs[i].node}) && r.nJobs < c.maxJobs
  {
    var r := Ended(s, i, status, stamp);
    var n := s.jobs[i].node;
    assert TableOk(c, TableOf(r)) && r.nJobs < c.maxJobs && Claims(TableOf(r)) + multiset{n} == Claims(TableOf(s)) + multiset{} by {
      EndedIs(c, s, i, status, stamp);
      EndedTable(c, TableOf(s), i, TableOf(r));
    }
    EndedIs(c, s, i, status, stamp);
    SameGraph(c, s, multiset{}, r, multiset{n});
  }

  lemma FailKeeps(c: Config, s: State, n: Node)
    requires Steady(c, s, multiset{n}) && n < c.size
    ensures Steady(c, Fail(c, s, n), multiset{})
  {
    InLimbo(c, s, n);
    var r := Fail(c, s, n);
    FailKeepsCore(c, ProgressOf(s), n, r.made[n]);
    assert ProgressOf(r) == ProgressOf(s).(made := r.made);
    Verdict(Claims(TableOf(s)), s.order, s.made, n, r.made[n]);
    assert TableOf(r) == TableOf(s);
  }

  lemma ExitSteady(c: Config, s: State, i: nat, status: Status, stamp: int)
    requires Steady(c, s, multiset{}) && i < |s.jobs|
    ensures Steady(c, Exit(c, s, i, status, stamp), multiset{})
  {
    EndedKeeps(c, s, i, status, stamp);
    if Counts(status, s.jobs[i]) {
      FailKeeps(c, Ended(s, i, status, stamp), s.jobs[i].node);
    } else {
      StartKeeps(c, Ended(s, i, status, stamp), Renew(c, s.jobs[i]));
    }
  }

  lemma ExitControl(c: Config, s: State, i: nat, status: Status, stamp: int)
    requires Shaped(c) && Sized(c, s) && i < |s.jobs| && s.mode.Catching? && Control(c, s)
    ensures Control(c, Exit(c, s, i, status, stamp))
  {
    if !Counts(status, s.jobs[i]) {
      StartFrame(c, Ended(s, i, status, stamp), Renew(c, s.jobs[i]));
    }
  }

  lemma ExitKeeps(c: Config, s: State, i: nat, status: Status, stamp: int)
    requires Inv(c, s) && Enabled(s, DoExit(i, status, stamp))
    ensures Inv(c, Exit(c, s, i, status, stamp))
  {
    ExitSteady(c, s, i, status, stamp);
    ExitControl(c, s, i, status, stamp);
  }

  /** The job at the head of the hold queue is taken off it. */
  lemma UnholdKeeps(c: Config, s: State)
    requires Steady(c, s, multiset{}) && s.held != []
    ensures Steady(c, s.(held := s.held[1..]), multiset{s.held[0].node})
  {
    var s1 := s.(held := s.held[1..]);
    assert Claims(TableOf(s1)) + multiset{s.held[0].node} == Claims(TableOf(s)) + multiset{};
    SameGraph(c, s, multiset{}, s1, multiset{s.held[0].node});
  }

  lemma RestartSteady(c: Config, s: State)
    requires Steady(c, s, multiset{}) && s.held != [] && s.nJobs < c.maxJobs
    ensures Steady(c, JobRestart(c, s), multiset{})
  {
    UnholdKeeps(c, s);
    assert s.held[0] in s.held;
    ExecKeeps(c, s.(held := s.held[1..]), s.held[0].(remote := s.nLocal >= c.maxLocal));
  }

  lemma RestartControl(c: Config, s: State)
    requires Shaped(c) && Sized(c, s) && Control(c, s) && Enabled(s, Restart)
    ensures Control(c, JobRestart(c, s))
  {
    ExecFrame(c, s.(held := s.held[1..]), s.held[0].(remote := s.nLocal >= c.maxLocal));
  }

  lemma RestartKeeps(c: Config, s: State)
    requires Inv(c, s) && Enabled(s, Restart)
    ensures Inv(c, JobRestart(c, s))
  {
    RestartSteady(c, s);
    RestartControl(c, s);
  }

  lemma RefuseKeeps(c: Config, s: State, n: Node, r: State)
    requires Steady(c, s, multiset{n}) && n < c.size
    requires r == s.(refused := s.refused + [n], mode := r.mode)
    ensures Steady(c, r, multiset{})
  {
    assert Claims(TableOf(r)) + multiset{} == Claims(TableOf(s)) + multiset{n};
    SameGraph(c, s, multiset{n}, r, multiset{});
  }

  lemma CheckKeeps(c: Config, s: State, n: Node)
    requires Steady(c, s, multiset{n}) && n < c.size
    ensures Steady(c, CheckCommands(c, s, n), multiset{n})
  {
    SameGraph(c, s, multiset{n}, CheckCommands(c, s, n), multiset{n});
  }

  lemma ModeKeeps(c: Config, s: State, mode: Mode)
    requires Steady(c, s, multiset{})
    ensures Steady(c, s.(mode := mode), multiset{})
  {
    SameGraph(c, s, multiset{}, s.(mode := mode), multiset{});
  }

  lemma JobMakeKeeps(c: Config, s: State, n: Node)
    requires Steady(c, s, multiset{n}) && n < c.size
    ensures Steady(c, JobMake(c, s, n), multiset{})
  {
    var s1 := CheckCommands(c, s, n);
    CheckKeeps(c, s, n);
    if Unmakeable(c, s1, n) {
      RefuseKeeps(c, s1, n, JobMake(c, s, n));
    } else {
      var job := Job(n, true, false, false, c.attr[n].ignore);
      StartKeeps(c, s1, job);
      ModeKeeps(c, JobStart(c, s1, job), Checking);
    }
  }

  lemma JobMakeControl(c: Config, s: State, n: Node)
    requires Shaped(c) && Sized(c, s) && n < c.size && Control(c, s) && s.mode.Filling?
    ensures Control(c, JobMake(c, s, n))
  {
    var s1 := CheckCommands(c, s, n);
    if !Unmakeable(c, s1, n) {
      StartFrame(c, s1, Job(n, true, false, false, c.attr[n].ignore));
    }
  }

  lemma BeginKeeps(c: Config, s: State, seen: State)
    requires Steady(c, s, multiset{}) && Sized(c, seen) && s.toBeMade != []
    requires !HeldBack(c, ProgressOf(s), s.toBeMade[0])
    requires ProgressOf(seen) == Begun(ProgressOf(s)) && TableOf(seen) == TableOf(s)
    ensures Steady(c, seen, multiset{s.toBeMade[0]})
  {
    var n := s.toBeMade[0];
    BeginKeepsCore(c, ProgressOf(s));
    assert seen.order == s.order + [n] && seen.made == s.made;
    var claims := Claims(TableOf(s));
    forall x: nat ensures (claims + multiset{n})[x] ==
        if x in seen.order && x < c.size && seen.made[x].Unmade? then 1 else 0
    {
      assert (claims + multiset{})[x] == claims[x];
    }
  }

  lemma JudgeKeeps(c: Config, s: State, n: Node)
    requires Steady(c, s, multiset{n}) && n < c.size
    ensures Steady(c, Judge(c, s, n), multiset{})
  {
    if IsOut(c, s, n) {
      JobMakeKeeps(c, s, n);
    } else {
      SettleKeeps(c, s, n, PassOver(c, s, n));
    }
  }

  lemma JudgeControl(c: Config, s: State, n: Node)
    requires Shaped(c) && Sized(c, s) && n < c.size && Control(c, s) && s.mode.Filling?
    ensures Control(c, Judge(c, s, n))
  {
    if IsOut(c, s, n) {
      JobMakeControl(c, s, n);
    } else {
      UpdateFrame(c, PassOver(c, s, n), n);
    }
  }

  lemma DropKeeps(c: Config, s: State)
    requires Steady(c, s, multiset{}) && s.toBeMade != [] && Blocked(c, s, s.toBeMade[0])
    ensures Steady(c, s.(toBeMade := s.toBeMade[1..]), multiset{})
  {
    var popped := s.(toBeMade := s.toBeMade[1..]);
    DropKeepsCore(c, ProgressOf(s));
    assert TableOf(popped) == TableOf(s);
    assert ProgressOf(popped) == ProgressOf(s).(toBeMade := s.toBeMade[1..]);
  }

  lemma ExamineKeeps(c: Config, s: State)
    requires Steady(c, s, multiset{}) && s.toBeMade != []
    ensures Steady(c, Examine(c, s), multiset{})
  {
    var n, seen := s.toBeMade[0], Seen(c, s);
    if Blocked(c, s, n) {
      DropKeeps(c, s);
    } else {
      BeginKeeps(c, s, seen) by {
        assert ProgressOf(seen) == Begun(ProgressOf(s));
        assert TableOf(seen) == TableOf(s);
      }
      JudgeKeeps(c, seen, n);
    }
  }

  lemma ExamineControl(c: Config, s: State)
    requires Shaped(c) && Sized(c, s) && Control(c, s) && Enabled(s, DoExamine)
    ensures Control(c, Examine(c, s))
  {
    if !Blocked(c, s, s.toBeMade[0]) {
      var seen := Seen(c, s);
      assert seen.mode == s.mode && seen.errors == s.errors && seen.made == s.made;
      assert Control(c, seen);
      JudgeControl(c, seen, s.toBeMade[0]);
    }
  }

  /** Every step keeps the invariant. */
  lemma StepKeeps(c: Config, s: State, a: Action)
    requires Inv(c, s) && Enabled(s, a)
    ensures Inv(c, Apply(c, s, a))
  {
    match a
    case DoExamine =>
      ExamineKeeps(c, s);
      ExamineControl(c, s);
    case Restart => RestartKeeps(c, s);
    case DoExit(i, status, stamp) => ExitKeeps(c, s, i, status, stamp);
    case _ =>
      var r := Apply(c, s, a);
      assert ProgressOf(r) == ProgressOf(s);
      assert Claims(TableOf(r)) == Claims(TableOf(s));
  }

  /** Which ends of a running job count as failures. */
  lemma CountsExactly(c: Config, s: State, i: nat, status: Status)
    requires Inv(c, s) && i < |s.jobs|
    ensures var n := s.jobs[i].node;
      && n < c.size && 1 <= s.cursor[n] <= |c.commands[n]| && !c.commands[n][s.cursor[n] - 1].blank
      && (Counts(status, s.jobs[i]) <==>
            status.Killed? || (status.code != 0 && !c.commands[n][s.cursor[n] - 1].dash && !c.attr[n].ignore))
  {
    assert RunsCommand(c, s.cursor, s.jobs[i]);
  }

  /** Every reachable state satisfies the invariant. */
  lemma {:induction false} RunKeeps(c: Config, s0: State, actions: seq<Action>, s1: State)
    requires Inv(c, s0) && Run(c, s0, actions, s1)
    ensures Inv(c, s1)
    decreases |actions|
  {
    if actions != [] {
      StepKeeps(c, s0, actions[0]);
      RunKeeps(c, Apply(c, s0, actions[0]), actions[1..], s1);
    }
  }
}
