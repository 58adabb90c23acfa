/** The parallel engine as a state machine.
  *
  * A State holds the scheduler's variables; each function below is one of the
  * engine's procedures, as a function from the state before to the state after.
  * The only nondeterminism of a run is in which running job ends next, how, and
  * what it does to the time of its target's file; that is the argument of the
  * Exit action.
  */
module Scheduler {
  import opened Graph

  datatype Made = Unmade | Remade | UpToDate | Failed | Aborted

  datatype Job = Job(node: Node, first: bool, restart: bool, remote: bool, ignerr: bool)

  /** How a child process ended. */
  datatype Status = Exited(code: nat) | Killed

  /** How the k-th command of a node ended; the first one has number 1. */
  datatype Ran = Ran(node: Node, k: nat, status: Status)

  /** Where control is: in MakeStartJobs, at Job_Empty in the main loop, in the
    * restart loop of Job_Empty, in Job_CatchChildren, after the main loop, or
    * after the process has exited early. */
  datatype Mode = Filling | Checking | Restarting | Catching | Finished | Dead

  datatype State = State(
    make: seq<bool>,
    made: seq<Made>,
    unmade: seq<int>,
    childMade: seq<bool>,
    mtime: seq<int>,
    cmtime: seq<int>,
    cursor: seq<nat>,        // commands read so far
    ftime: seq<int>,         // the file system: modification time, 0 if there is no file
    toBeMade: seq<Node>,
    numNodes: int,
    jobs: seq<Job>,
    held: seq<Job>,          // stoppedJobs
    nJobs: int,
    nLocal: int,
    jobFull: bool,
    errors: nat,
    aborting: bool,
    mode: Mode,
    // History, never read by the engine:
    order: seq<Node>,        // nodes past the predecessor check, in order
    log: seq<Ran>,           // commands that ended, in order
    refused: seq<Node>,      // nodes there was no way to make
    abandoned: seq<Node>)    // nodes whose job ended well, but during an abort

  /** The sequences of the node fields are all as long as the graph. */
  predicate Sized(c: Config, s: State) {
    && |s.make| == |s.made| == |s.unmade| == |s.childMade| == c.size
    && |s.mtime| == |s.cmtime| == |s.cursor| == |s.ftime| == c.size
    && Within(s.toBeMade, c.size)
    && (forall i :: 0 <= i < |s.jobs| ==> s.jobs[i].node < c.size)
    && (forall i :: 0 <= i < |s.held| ==> s.held[i].node < c.size)
  }

  function Max(a: int, b: int): int { if a < b then b else a }

  // ---------------------------------------------------------------- make.c

  /** Make_TimeStamp over a list of parents. */
  function StampAll(cmtime: seq<int>, t: int, ps: seq<Node>): (r: seq<int>)
    requires Within(ps, |cmtime|)
    ensures |r| == |cmtime|
    decreases |ps|
  {
    if ps == [] then cmtime
    else
      var p := ps[0];
      assert Within(ps[1..], |cmtime|);
      StampAll(cmtime[p := Max(cmtime[p], t)], t, ps[1..])
  }

  /** The verdict of Make_OODate, once the node's time has been looked up. */
  predicate OutOfDate(a: Attr, childMade: bool, mtime: int, cmtime: int) {
    if a.join then childMade
    else if a.force || a.exec then true
    else mtime < cmtime || (cmtime == 0 && (mtime == 0 || a.doubleDep))
  }

  /** Dir_MTime as Make_OODate calls it: .JOIN and .EXEC nodes are not looked up. */
  function LookUp(c: Config, s: State, n: Node): (r: State)
    requires Shaped(c) && Sized(c, s) && n < c.size
    ensures Sized(c, r)
  {
    if c.attr[n].join || c.attr[n].exec then s else s.(mtime := s.mtime[n := s.ftime[n]])
  }

  /** What Make_Update does to one parent of the settled node n. */
  function UpdateParent(c: Config, s: State, n: Node, p: Node): (r: State)
    requires Shaped(c) && Sized(c, s) && n < c.size && p < c.size
    ensures Sized(c, r)
  {
    if !s.make[p] then s
    else
      var counted := s.(unmade := s.unmade[p := s.unmade[p] - 1]);
      var stamped :=
        if c.attr[n].exec then counted
        else counted.(
          childMade := if s.made[n].Remade? then s.childMade[p := true] else s.childMade,
          cmtime := s.cmtime[p := Max(s.cmtime[p], s.mtime[n])]);
      if stamped.unmade[p] == 0 then stamped.(toBeMade := s.toBeMade + [p]) else stamped
  }

  /** The loop of Make_Update over the parents of the settled node n. */
  function UpdateParents(c: Config, s: State, n: Node, ps: seq<Node>): (r: State)
    requires Shaped(c) && Sized(c, s) && n < c.size && Within(ps, c.size)
    ensures Sized(c, r)
    decreases |ps|
  {
    if ps == [] then s
    else
      assert Within(ps[1..], c.size);
      UpdateParents(c, UpdateParent(c, s, n, ps[0]), n, ps[1..])
  }

  /** What Make_Update does to one .ORDER successor of the settled node. */
  function WakeSuccessor(c: Config, s: State, x: Node): (r: State)
    requires Shaped(c) && Sized(c, s) && x < c.size
    ensures Sized(c, r)
  {
    if s.make[x] && s.unmade[x] == 0 && s.made[x].Unmade? && x !in s.toBeMade
    then s.(toBeMade := s.toBeMade + [x])
    else s
  }

  /** The loop of Make_Update over the .ORDER successors of the settled node. */
  function WakeSuccessors(c: Config, s: State, succs: seq<Node>): (r: State)
    requires Shaped(c) && Sized(c, s) && Within(succs, c.size)
    ensures Sized(c, r)
    decreases |succs|
  {
    if succs == [] then s
    else
      assert Within(succs[1..], c.size);
      WakeSuccessors(c, WakeSuccessor(c, s, succs[0]), succs[1..])
  }

  /** The first part of Make_Update: the time of a node that was remade. */
  function Recheck(c: Config, s: State, n: Node): (r: State)
    requires Shaped(c) && Sized(c, s) && n < c.size
    ensures Sized(c, r)
  {
    if s.made[n].UpToDate? then s
    else s.(mtime := s.mtime[n := if s.ftime[n] == 0 then c.now else s.ftime[n]])
  }

  /** Make_Update. */
  function MakeUpdate(c: Config, s: State, n: Node): (r: State)
    requires Shaped(c) && Sized(c, s) && n < c.size
    ensures Sized(c, r)
  {
    WakeSuccessors(c, UpdateParents(c, Recheck(c, s, n), n, c.parents[n]), c.successors[n])
  }

  /** Does an unmade predecessor hold the node back? */
  predicate Blocked(c: Config, s: State, n: Node)
    requires Shaped(c) && Sized(c, s) && n < c.size
  {
    exists i :: 0 <= i < |c.preds[n]| && s.make[c.preds[n][i]] && s.made[c.preds[n][i]].Unmade?
  }

  /** A turn of the loop of MakeStartJobs. */
  function Examine(c: Config, s: State): (r: State)
    requires Shaped(c) && Sized(c, s) && s.toBeMade != []
    ensures Sized(c, r)
  {
    var n := s.toBeMade[0];
    if Blocked(c, s, n) then s.(toBeMade := s.toBeMade[1..])
    else Judge(c, Seen(c, s), n)
  }

  /** The head of the queue has passed the predecessor check and has been looked up. */
  function Seen(c: Config, s: State): (r: State)
    requires Shaped(c) && Sized(c, s) && s.toBeMade != []
    ensures Sized(c, r)
  {
    var n := s.toBeMade[0];
    LookUp(c, s.(toBeMade := s.toBeMade[1..], numNodes := s.numNodes - 1, order := s.order + [n]), n)
  }

  predicate IsOut(c: Config, s: State, n: Node)
    requires Shaped(c) && Sized(c, s) && n < c.size
  {
    OutOfDate(c.attr[n], s.childMade[n], s.mtime[n], s.cmtime[n])
  }

  /** What becomes of a node that is examined. */
  function Judge(c: Config, s: State, n: Node): (r: State)
    requires Shaped(c) && Sized(c, s) && n < c.size
    ensures Sized(c, r)
  {
    if IsOut(c, s, n) then JobMake(c, s, n)
    else MakeUpdate(c, PassOver(c, s, n), n)
  }

  /** The node is up to date: its parents learn its time. */
  function PassOver(c: Config, s: State, n: Node): (r: State)
    requires Shaped(c) && Sized(c, s) && n < c.size
    ensures Sized(c, r)
  {
    s.(cmtime := StampAll(s.cmtime, s.mtime[n], c.parents[n]), made := s.made[n := UpToDate])
  }

  // ----------------------------------------------------------------- job.c

  /** Job_CheckCommands fails: not a target, no commands, no file, not optional. */
  predicate Unmakeable(c: Config, s: State, n: Node)
    requires Shaped(c) && Sized(c, s) && n < c.size
  {
    c.attr[n].Nop() && c.commands[n] == [] && s.ftime[n] == 0 && !c.attr[n].optional
  }

  /** Job_CheckCommands looks the file up when there is nothing to run. */
  function CheckCommands(c: Config, s: State, n: Node): (r: State)
    requires Shaped(c) && Sized(c, s) && n < c.size
    ensures Sized(c, r)
  {
    if c.attr[n].Nop() && c.commands[n] == [] then s.(mtime := s.mtime[n := s.ftime[n]]) else s
  }

  /** Job_Make for an out-of-date node, and what MakeStartJobs does with its answer. */
  function JobMake(c: Config, s: State, n: Node): (r: State)
    requires Shaped(c) && Sized(c, s) && n < c.size
    ensures Sized(c, r)
  {
    var s1 := CheckCommands(c, s, n);
    if Unmakeable(c, s1, n) then
      if c.keepgoing then s1.(refused := s1.refused + [n], mode := Checking)
      else s1.(refused := s1.refused + [n], mode := Dead)
    else
      var s2 := JobStart(c, s1, Job(n, true, false, false, c.attr[n].ignore));
      if s2.aborting then s2.(mode := Checking) else s2
  }

  /** JobStart, past the check of the commands. */
  function JobStart(c: Config, s: State, job: Job): (r: State)
    requires Shaped(c) && Sized(c, s) && job.node < c.size
    ensures Sized(c, r)
    ensures r.jobFull || r.held == s.held
    decreases Unread(c, s, job), 1
  {
    if s.nJobs >= c.maxJobs then Hold(c, s, job)
    else JobExec(c, s, job.(remote := s.nLocal >= c.maxLocal))
  }

  /** There is no room: the job goes to the end of the hold queue. */
  function Hold(c: Config, s: State, job: Job): (r: State)
    requires Sized(c, s) && job.node < c.size
    ensures Sized(c, r)
  {
    s.(jobFull := true, held := s.held + [job.(restart := true)])
  }

  /** How many commands the job has not read yet. */
  function Unread(c: Config, s: State, job: Job): nat
    requires Shaped(c) && Sized(c, s) && job.node < c.size
  {
    var k := NextCommand(s, job);
    if k < |c.commands[job.node]| then |c.commands[job.node]| - k else 0
  }

  /** The index of the command the job reads next; the first job of a node starts over. */
  function NextCommand(s: State, job: Job): nat
    requires job.node < |s.cursor|
  {
    if job.first then 0 else s.cursor[job.node]
  }

  /** JobStart for the next command of the same job: the flags are set afresh. */
  function Renew(c: Config, job: Job): Job
    requires Shaped(c) && job.node < c.size
  {
    Job(job.node, false, false, false, c.attr[job.node].ignore)
  }

  /** JobExec: run the next command that is not blank, or finish the job. */
  function JobExec(c: Config, s: State, job: Job): (r: State)
    requires Shaped(c) && Sized(c, s) && job.node < c.size
    ensures Sized(c, r)
    ensures r.jobFull || r.held == s.held
    decreases Unread(c, s, job), 0
  {
    var n := job.node;
    var k := NextCommand(s, job);
    if k >= |c.commands[n]| then Complete(c, s, n)
    else
      var read := s.(cursor := s.cursor[n := k + 1]);
      if c.commands[n][k].blank then JobStart(c, read, Renew(c, job))
      else Launch(c, read, job.(ignerr := job.ignerr || c.commands[n][k].dash))
  }

  /** The job is running: it enters the table. */
  function Launch(c: Config, s: State, job: Job): (r: State)
    requires Sized(c, s) && job.node < c.size
    ensures Sized(c, r)
  {
    s.(jobs := s.jobs + [job],
       nJobs := s.nJobs + 1,
       nLocal := if job.remote then s.nLocal else s.nLocal + 1,
       jobFull := s.jobFull || s.nJobs + 1 == c.maxJobs)
  }

  /** The end of JobFinish for a job without a failure. */
  function Complete(c: Config, s: State, n: Node): (r: State)
    requires Shaped(c) && Sized(c, s) && n < c.size
    ensures Sized(c, r) && r.held == s.held
  {
    if s.aborting then s.(abandoned := s.abandoned + [n])
    else
      UpdateKeepsTable(c, s.(made := s.made[n := Remade]), n);
      MakeUpdate(c, s.(made := s.made[n := Remade]), n)
  }

  /** The end of JobFinish for a job whose failure counts. */
  function Fail(c: Config, s: State, n: Node): (r: State)
    requires Sized(c, s) && n < c.size
    ensures Sized(c, r)
  {
    s.(made := s.made[n := if s.aborting then Aborted else Failed],
       errors := s.errors + 1,
       aborting := s.aborting || !c.keepgoing)
  }

  /** Job_CatchChildren removes the job that ended from the table. */
  function TakeOut(s: State, i: nat): State
    requires i < |s.jobs|
  {
    s.(jobs := s.jobs[..i] + s.jobs[i + 1..],
       nJobs := s.nJobs - 1,
       nLocal := if s.jobs[i].remote then s.nLocal else s.nLocal - 1,
       jobFull := false)
  }

  predicate Counts(status: Status, job: Job) {
    status.Killed? || (status.code != 0 && !job.ignerr)
  }

  /** The state when JobFinish is called for a child that ended. */
  function Ended(s: State, i: nat, status: Status, stamp: int): State
    requires i < |s.jobs| && s.jobs[i].node < |s.ftime| == |s.cursor|
  {
    var job := s.jobs[i];
    TakeOut(s, i).(
      ftime := s.ftime[job.node := stamp],
      log := s.log + [Ran(job.node, s.cursor[job.node], status)])
  }

  /** Job_CatchChildren and JobFinish for a child that ended. */
  function Exit(c: Config, s: State, i: nat, status: Status, stamp: int): (r: State)
    requires Shaped(c) && Sized(c, s) && i < |s.jobs|
    ensures Sized(c, r)
  {
    var job := s.jobs[i];
    var s1 := Ended(s, i, status, stamp);
    if Counts(status, job) then Fail(c, s1, job.node)
    else JobStart(c, s1, Renew(c, job))
  }

  /** JobRestart for the job at the head of the hold queue. */
  function JobRestart(c: Config, s: State): (r: State)
    requires Shaped(c) && Sized(c, s) && s.held != []
    ensures Sized(c, r)
    ensures r.jobFull || r.held == s.held[1..]
  {
    var job := s.held[0];
    var s1 := s.(held := s.held[1..]);
    if s.nLocal >= c.maxLocal then
      if s.nJobs >= c.maxJobs then s1.(held := [job] + s1.held, jobFull := true)
      else JobExec(c, s1, job.(remote := true))
    else JobExec(c, s1, job.(remote := false))
  }

  // ------------------------------------------------------------------ runs

  /** The condition of the restart loop at the end of JobFinish. */
  predicate Pending(s: State) {
    s.errors == 0 && !s.jobFull && s.held != []
  }

  datatype Action =
    | DoExamine | EndFilling | Check | Restart | EndRestarting
    | DoExit(i: nat, status: Status, stamp: int) | EndCatching

  predicate Enabled(s: State, a: Action) {
    match a
    case DoExamine => s.mode.Filling? && !Pending(s) && s.toBeMade != []
    case EndFilling => s.mode.Filling? && !Pending(s) && s.toBeMade == []
    case Check => s.mode.Checking?
    case Restart =>
      || ((s.mode.Filling? || s.mode.Catching?) && Pending(s))
      || (s.mode.Restarting? && !s.jobFull && s.held != [])
    case EndRestarting => s.mode.Restarting? && (s.jobFull || s.held == [])
    case DoExit(i, _, _) => s.mode.Catching? && !Pending(s) && i < |s.jobs|
    case EndCatching => s.mode.Catching? && !Pending(s) && s.jobs == []
  }

  /** Job_Empty: the main loop ends, or restarts held jobs, or waits. */
  function JobEmpty(s: State): State {
    if s.nJobs == 0 then
      if s.held != [] && !s.aborting then s.(jobFull := false, mode := Restarting)
      else s.(mode := Finished)
    else s.(mode := Catching)
  }

  function Apply(c: Config, s: State, a: Action): (r: State)
    requires Shaped(c) && Sized(c, s) && Enabled(s, a)
    ensures Sized(c, r)
  {
    match a
    case DoExamine => Examine(c, s)
    case EndFilling => s.(mode := Checking)
    case Check => JobEmpty(s)
    case Restart => JobRestart(c, s)
    case EndRestarting => s.(mode := Catching)
    case DoExit(i, status, stamp) => Exit(c, s, i, status, stamp)
    case EndCatching => s.(mode := Filling)
  }

  /** s1 is the state after the actions, each enabled in its turn. */
  ghost predicate Run(c: Config, s0: State, actions: seq<Action>, s1: State)
    requires Shaped(c) && Sized(c, s0)
    decreases |actions|
  {
    if actions == [] then s1 == s0
    else
      && Enabled(s0, actions[0])
      && Run(c, Apply(c, s0, actions[0]), actions[1..], s1)
  }

  lemma {:induction false} RunAppend(c: Config, s0: State, actions: seq<Action>, s: State, a: Action)
    requires Shaped(c) && Sized(c, s0) && Sized(c, s) && Run(c, s0, actions, s) && Enabled(s, a)
    ensures Run(c, s0, actions + [a], Apply(c, s, a))
    decreases |actions|
  {
    if actions == [] {
      assert [] + [a] == [a];
      assert [a][1..] == [];
    } else {
      assert (actions + [a])[0] == actions[0] && (actions + [a])[1..] == actions[1..] + [a];
      RunAppend(c, Apply(c, s0, actions[0]), actions[1..], s, a);
    }
  }

  /** Make_Update leaves the job table alone. */
  lemma UpdateKeepsTable(c: Config, s: State, n: Node)
    requires Shaped(c) && Sized(c, s) && n < c.size
    ensures MakeUpdate(c, s, n).held == s.held
  {
    UpdateParentsKeeps(c, Recheck(c, s, n), n, c.parents[n]);
    WakeKeeps(c, UpdateParents(c, Recheck(c, s, n), n, c.parents[n]), c.successors[n]);
  }

  lemma UpdateParentsKeeps(c: Config, s: State, n: Node, ps: seq<Node>)
    requires Shaped(c) && Sized(c, s) && n < c.size && Within(ps, c.size)
    ensures UpdateParents(c, s, n, ps).held == s.held
    decreases |ps|
  {
  }

  lemma WakeKeeps(c: Config, s: State, succs: seq<Node>)
    requires Shaped(c) && Sized(c, s) && Within(succs, c.size)
    ensures WakeSuccessors(c, s, succs).held == s.held
    decreases |succs|
  {
  }
}
