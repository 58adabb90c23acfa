/** Which commands of a node have run, and with what result. */
module Commands {
  import opened Graph
  import opened Scheduler
  import opened Protocol
  import opened JobTable
  import opened Readiness

  /** A command fails: it is killed, or exits with an error that neither a '-' nor .IGNORE excuses. */
  predicate Failing(ignore: bool, cmd: Command, status: Status) {
    status.Killed? || (status.code != 0 && !cmd.dash && !ignore)
  }

  /** The k-th command of a node ended, and with a failure that counts or not. */
  datatype Entry = Entry(node: Node, k: nat, failed: bool)

  function Judged(c: Config, r: Ran): Entry
    requires Shaped(c)
  {
    Entry(r.node, r.k, r.node < c.size && 1 <= r.k <= |c.commands[r.node]| &&
      Failing(c.attr[r.node].ignore, c.commands[r.node][r.k - 1], r.status))
  }

  /** The commands of one node that have ended, in order. */
  function RunsOf(log: seq<Ran>, n: Node): seq<Ran> {
    if log == [] then []
    else
      var last := log[|log| - 1];
      RunsOf(log[..|log| - 1], n) + if last.node == n then [last] else []
  }

  /** The same, with the verdict on each. */
  function LogOf(c: Config, log: seq<Ran>, n: Node): seq<Entry>
    requires Shaped(c)
  {
    if log == [] then []
    else
      var last := log[|log| - 1];
      LogOf(c, log[..|log| - 1], n) + if last.node == n then [Judged(c, last)] else []
  }

  lemma {:induction false} LogIsJudged(c: Config, log: seq<Ran>, n: Node)
    requires Shaped(c)
    ensures var l, runs := LogOf(c, log, n), RunsOf(log, n);
      |l| == |runs| && forall i :: 0 <= i < |l| ==> l[i] == Judged(c, runs[i]) && runs[i].node == n
  {
    if log != [] { LogIsJudged(c, log[..|log| - 1], n); }
  }

  /** The first `upto` commands of a node, run without a failure; blank ones are not run. */
  function Done(cmds: seq<Command>, n: Node, upto: nat): seq<Entry>
    requires upto <= |cmds|
  {
    if upto == 0 then []
    else Done(cmds, n, upto - 1) + if cmds[upto - 1].blank then [] else [Entry(n, upto, false)]
  }

  lemma LogGrows(c: Config, log: seq<Ran>, r: Ran, n: Node)
    requires Shaped(c)
    ensures LogOf(c, log + [r], n) == LogOf(c, log, n) + if r.node == n then [Judged(c, r)] else []
  {
    assert (log + [r])[..|log|] == log;
  }

  /** The log l of node n is what the node's state says: k commands read, running or not, given
    * up or not. */
  predicate Tells(cmds: seq<Command>, n: Node, made: Made, givenUp: bool, running: bool, k: nat, l: seq<Entry>) {
    if Lost(made) then
      1 <= k <= |cmds| && !cmds[k - 1].blank && l == Done(cmds, n, k - 1) + [Entry(n, k, true)]
    else if made.Remade? || givenUp then
      l == Done(cmds, n, |cmds|)
    else if running then
      1 <= k <= |cmds| && !cmds[k - 1].blank && l == Done(cmds, n, k - 1)
    else
      l == []
  }

  predicate LogFits(c: Config, s: State, n: Node)
    requires Shaped(c) && Sized(c, s) && n < c.size
  {
    Tells(c.commands[n], n, s.made[n], n in s.abandoned, NodesOf(s.jobs)[n] > 0, s.cursor[n], LogOf(c, s.log, n))
  }

  ghost predicate LogOk(c: Config, s: State, limbo: set<Node>)
    requires Shaped(c) && Sized(c, s)
  {
    forall n: Node :: n < c.size && n !in limbo ==> LogFits(c, s, n)
  }

  /** Nothing about node m that its log depends on has changed. */
  ghost predicate SameFor(s: State, r: State, m: Node) {
    && m < |s.made| == |r.made| && m < |s.cursor| == |r.cursor|
    && r.made[m] == s.made[m] && r.cursor[m] == s.cursor[m]
    && (m in r.abandoned <==> m in s.abandoned)
    && NodesOf(r.jobs)[m] == NodesOf(s.jobs)[m]
  }

  lemma CompleteOthers(c: Config, s: State, n: Node, m: Node)
    requires Shaped(c) && Sized(c, s) && n < c.size && m < c.size && m != n
    ensures SameFor(s, Complete(c, s, n), m)
  {
    if !s.aborting { UpdateFrame(c, s.(made := s.made[n := Remade]), n); }
  }

  lemma {:induction false} ExecOthers(c: Config, s: State, job: Job, m: Node)
    requires Shaped(c) && Sized(c, s) && job.node < c.size && m < c.size && m != job.node
    ensures SameFor(s, JobExec(c, s, job), m)
    decreases Unread(c, s, job), 0
  {
    var n, k := job.node, NextCommand(s, job);
    if k >= |c.commands[n]| {
      CompleteOthers(c, s, n, m);
    } else if c.commands[n][k].blank {
      StartOthers(c, s.(cursor := s.cursor[n := k + 1]), Renew(c, job), m);
    } else {
      AppendJob(s.jobs, job.(ignerr := job.ignerr || c.commands[n][k].dash));
    }
  }

  lemma {:induction false} StartOthers(c: Config, s: State, job: Job, m: Node)
    requires Shaped(c) && Sized(c, s) && job.node < c.size && m < c.size && m != job.node
    ensures SameFor(s, JobStart(c, s, job), m)
    decreases Unread(c, s, job), 1
  {
    if s.nJobs < c.maxJobs {
      ExecOthers(c, s, job.(remote := s.nLocal >= c.maxLocal), m);
    }
  }

  /** The node is nowhere, and what has run of it so far is its first commands. */
  predicate ReadSoFar(c: Config, s: State, job: Job)
    requires Shaped(c) && Sized(c, s) && job.node < c.size
  {
    var k := NextCommand(s, job);
    && k <= |c.commands[job.node]| && s.made[job.node].Unmade?
    && job.node !in s.abandoned && NodesOf(s.jobs)[job.node] == 0
    && LogOf(c, s.log, job.node) == Done(c.commands[job.node], job.node, k)
  }

  lemma CompleteLog(c: Config, s: State, n: Node)
    requires Shaped(c) && Sized(c, s) && n < c.size
    requires LogOf(c, s.log, n) == Done(c.commands[n], n, |c.commands[n]|)
    requires s.made[n].Unmade?
    ensures LogFits(c, Complete(c, s, n), n)
  {
    if !s.aborting { UpdateFrame(c, s.(made := s.made[n := Remade]), n); }
  }

  lemma {:induction false} ExecLog(c: Config, s: State, job: Job)
    requires Shaped(c) && Sized(c, s) && job.node < c.size && ReadSoFar(c, s, job)
    requires s.nJobs < c.maxJobs
    ensures LogFits(c, JobExec(c, s, job), job.node)
    decreases Unread(c, s, job), 0
  {
    var n, k := job.node, NextCommand(s, job);
    if k >= |c.commands[n]| {
      CompleteLog(c, s, n);
    } else if c.commands[n][k].blank {
      StartLog(c, s.(cursor := s.cursor[n := k + 1]), Renew(c, job));
    } else {
      AppendJob(s.jobs, job.(ignerr := job.ignerr || c.commands[n][k].dash));
    }
  }

  lemma {:induction false} StartLog(c: Config, s: State, job: Job)
    requires Shaped(c) && Sized(c, s) && job.node < c.size && ReadSoFar(c, s, job)
    requires s.nJobs < c.maxJobs || job.first
    ensures LogFits(c, JobStart(c, s, job), job.node)
    decreases Unread(c, s, job), 1
  {
    if s.nJobs < c.maxJobs {
      ExecLog(c, s, job.(remote := s.nLocal >= c.maxLocal));
    }
  }

  /** The rest of the nodes keep their logs, and n has the right one. */
  lemma OthersKept(c: Config, s: State, r: State, n: Node)
    requires Shaped(c) && Sized(c, s) && Sized(c, r) && LogOk(c, s, {n}) && r.log == s.log
    requires forall m: Node :: m < c.size && m != n ==> SameFor(s, r, m)
    requires n < c.size && LogFits(c, r, n)
    ensures LogOk(c, r, {})
  {
    forall m: Node | m < c.size ensures LogFits(c, r, m) {
      if m != n {
        assert LogFits(c, s, m);
        assert SameFor(s, r, m);
      }
    }
  }

  lemma StartKeepsLog(c: Config, s: State, job: Job)
    requires Shaped(c) && Sized(c, s) && job.node < c.size && ReadSoFar(c, s, job)
    requires s.nJobs < c.maxJobs || job.first
    requires LogOk(c, s, {job.node})
    ensures LogOk(c, JobStart(c, s, job), {})
  {
    StartLog(c, s, job);
    forall m: Node | m < c.size && m != job.node ensures SameFor(s, JobStart(c, s, job), m) {
      StartOthers(c, s, job, m);
    }
    StartFrame(c, s, job);
    OthersKept(c, s, JobStart(c, s, job), job.node);
  }

  /** The end of the i-th running job counts as a failure exactly if its command fails. */
  predicate CountsRightly(c: Config, s: State, i: nat, status: Status)
    requires Shaped(c) && Sized(c, s) && i < |s.jobs|
  {
    var n := s.jobs[i].node;
    Judged(c, Ran(n, s.cursor[n], status)).failed <==> Counts(status, s.jobs[i])
  }

  /** A child ended: its node leaves the table and its log gets the entry. */
  lemma EndedLog(c: Config, s: State, i: nat, status: Status, stamp: int)
    requires Shaped(c) && Sized(c, s) && LogOk(c, s, {}) && i < |s.jobs|
    requires s.made[s.jobs[i].node].Unmade? && s.jobs[i].node !in s.abandoned
    requires NodesOf(s.jobs)[s.jobs[i].node] == 1 && CountsRightly(c, s, i, status)
    ensures var r, job := Ended(s, i, status, stamp), s.jobs[i];
      && Sized(c, r) && LogOk(c, r, {job.node})
      && (if Counts(status, job) then LogFits(c, Fail(c, r, job.node), job.node)
          else ReadSoFar(c, r, Renew(c, job)))
  {
    var job := s.jobs[i];
    var n := job.node;
    var r := Ended(s, i, status, stamp);
    RemoveJob(s.jobs, i);
    assert LogFits(c, s, n);
    var last := Ran(n, s.cursor[n], status);
    LogGrows(c, s.log, last, n);
    forall m: Node | m < c.size && m != n ensures LogFits(c, r, m) {
      assert LogFits(c, s, m);
      LogGrows(c, s.log, last, m);
    }
  }

  lemma ExitKeepsLog(c: Config, s: State, i: nat, status: Status, stamp: int)
    requires Shaped(c) && Sized(c, s) && LogOk(c, s, {}) && i < |s.jobs|
    requires s.made[s.jobs[i].node].Unmade? && s.jobs[i].node !in s.abandoned
    requires NodesOf(s.jobs)[s.jobs[i].node] == 1 && s.nJobs <= c.maxJobs && CountsRightly(c, s, i, status)
    ensures LogOk(c, Exit(c, s, i, status, stamp), {})
  {
    var job, s1 := s.jobs[i], Ended(s, i, status, stamp);
    EndedLog(c, s, i, status, stamp);
    if Counts(status, job) {
      OthersKept(c, s1, Fail(c, s1, job.node), job.node);
    } else {
      StartKeepsLog(c, s1, Renew(c, job));
    }
  }

  /** Where the node of a running job is not. */
  lemma RunningNode(c: Config, s: State, i: nat)
    requires Inv(c, s) && i < |s.jobs|
    ensures var n := s.jobs[i].node;
      && n < c.size && s.made[n].Unmade? && n !in s.abandoned && NodesOf(s.jobs)[n] == 1
      && s.nJobs <= c.maxJobs && n in s.order
  {
    RemoveJob(s.jobs, i);
    var claims := Claims(TableOf(s)) + multiset{};
    var n := s.jobs[i].node;
    assert NodesOf(s.jobs)[n] >= 1;
    assert claims[n] == 1;
  }

  /** Where the node of the first held job is not. */
  lemma HeldNode(c: Config, s: State)
    requires Inv(c, s) && s.held != []
    ensures var n := s.held[0].node;
      && n < c.size && s.made[n].Unmade? && n !in s.abandoned && NodesOf(s.jobs)[n] == 0
      && s.held[0].first && n in s.order
  {
    var claims := Claims(TableOf(s)) + multiset{};
    var n := s.held[0].node;
    assert NodesOf(s.held)[n] >= 1;
    assert claims[n] == 1;
    assert s.held[0] in s.held;
  }

  lemma RestartKeepsLog(c: Config, s: State)
    requires Shaped(c) && Sized(c, s) && LogOk(c, s, {}) && s.held != []
    requires var n := s.held[0].node;
      && s.made[n].Unmade? && n !in s.abandoned && NodesOf(s.jobs)[n] == 0
      && s.held[0].first && s.nJobs < c.maxJobs
    ensures LogOk(c, JobRestart(c, s), {})
  {
    var job := s.held[0];
    var n := job.node;
    var s1, next := s.(held := s.held[1..]), job.(remote := s.nLocal >= c.maxLocal);
    assert LogFits(c, s, n);
    var r := JobExec(c, s1, next);
    assert JobRestart(c, s) == r;
    ExecLog(c, s1, next);
    forall m: Node | m < c.size && m != n ensures SameFor(s, r, m) {
      ExecOthers(c, s1, next, m);
    }
    ExecFrame(c, s1, next);
    OthersKept(c, s, r, n);
  }

  lemma JobMakeKeepsLog(c: Config, s: State, n: Node)
    requires Shaped(c) && Sized(c, s) && LogOk(c, s, {})
    requires n < c.size && s.made[n].Unmade? && n !in s.abandoned && NodesOf(s.jobs)[n] == 0
    ensures LogOk(c, JobMake(c, s, n), {})
  {
    assert LogFits(c, s, n);
    var s1, r := CheckCommands(c, s, n), JobMake(c, s, n);
    forall m: Node | m < c.size ensures LogFits(c, s1, m) { assert LogFits(c, s, m); }
    if Unmakeable(c, s1, n) {
      OthersKept(c, s1, r, n);
    } else {
      var job := Job(n, true, false, false, c.attr[n].ignore);
      StartKeepsLog(c, s1, job);
      forall m: Node | m < c.size ensures LogFits(c, r, m) {
        assert LogFits(c, JobStart(c, s1, job), m);
      }
    }
  }

  lemma JudgeKeepsLog(c: Config, s: State, n: Node)
    requires Shaped(c) && Sized(c, s) && LogOk(c, s, {})
    requires n < c.size && s.made[n].Unmade? && n !in s.abandoned && NodesOf(s.jobs)[n] == 0
    ensures LogOk(c, Judge(c, s, n), {})
  {
    if IsOut(c, s, n) {
      JobMakeKeepsLog(c, s, n);
    } else {
      assert LogFits(c, s, n);
      UpdateFrame(c, PassOver(c, s, n), n);
      OthersKept(c, s, Judge(c, s, n), n);
    }
  }

  /** Where the head of the queue is not. */
  lemma QueueHead(c: Config, s: State)
    requires Inv(c, s) && s.toBeMade != []
    ensures var n := s.toBeMade[0];
      && n < c.size && s.make[n] && s.made[n].Unmade? && n !in s.order
      && n !in s.abandoned && NodesOf(s.jobs)[n] == 0
  {
    var n := s.toBeMade[0];
    assert n in s.toBeMade;
    var claims := Claims(TableOf(s)) + multiset{};
    assert claims[n] == 0;
  }

  lemma ExamineKeepsLog(c: Config, s: State)
    requires Shaped(c) && Sized(c, s) && LogOk(c, s, {}) && s.toBeMade != []
    requires var n := s.toBeMade[0];
      s.made[n].Unmade? && n !in s.abandoned && NodesOf(s.jobs)[n] == 0
    ensures LogOk(c, Examine(c, s), {})
  {
    var n := s.toBeMade[0];
    if Blocked(c, s, n) {
      forall m: Node | m < c.size ensures LogFits(c, Examine(c, s), m) { assert LogFits(c, s, m); }
    } else {
      var seen := Seen(c, s);
      forall m: Node | m < c.size ensures LogFits(c, seen, m) { assert LogFits(c, s, m); }
      JudgeKeepsLog(c, seen, n);
    }
  }

  lemma ExitStepKeepsLog(c: Config, s: State, i: nat, status: Status, stamp: int)
    requires Inv(c, s) && LogOk(c, s, {}) && i < |s.jobs|
    ensures LogOk(c, Exit(c, s, i, status, stamp), {})
  {
    RunningNode(c, s, i);
    assert CountsRightly(c, s, i, status) by { CountsExactly(c, s, i, status); }
    ExitKeepsLog(c, s, i, status, stamp);
  }

  lemma StepKeepsLog(c: Config, s: State, a: Action)
    requires Inv(c, s) && LogOk(c, s, {}) && Enabled(s, a)
    ensures LogOk(c, Apply(c, s, a), {})
  {
    match a
    case DoExamine =>
      QueueHead(c, s);
      ExamineKeepsLog(c, s);
    case Restart =>
      HeldNode(c, s);
      RestartKeepsLog(c, s);
    case DoExit(i, status, stamp) => ExitStepKeepsLog(c, s, i, status, stamp);
    case _ =>
      forall m: Node | m < c.size ensures LogFits(c, Apply(c, s, a), m) { assert LogFits(c, s, m); }
  }

  lemma {:induction false} RunKeepsLog(c: Config, s0: State, actions: seq<Action>, s1: State)
    requires Inv(c, s0) && LogOk(c, s0, {}) && Run(c, s0, actions, s1)
    ensures Inv(c, s1) && LogOk(c, s1, {})
    decreases |actions|
  {
    if actions != [] {
      StepKeeps(c, s0, actions[0]);
      StepKeepsLog(c, s0, actions[0]);
      RunKeepsLog(c, Apply(c, s0, actions[0]), actions[1..], s1);
    }
  }

  lemma ReachableLog(c: Config, s: State)
    requires Reachable(c, s)
    ensures Inv(c, s) && LogOk(c, s, {})
  {
    var s0, actions :| Initial(c, s0) && Run(c, s0, actions, s);
    InitialInv(c, s0);
    RunKeepsLog(c, s0, actions, s);
  }

  /** l holds the first commands of the node that are not blank, none of which failed. */
  ghost predicate Prefix(cmds: seq<Command>, n: Node, l: seq<Entry>) {
    exists k :: 0 <= k <= |cmds| && l == Done(cmds, n, k)
  }

  /** l ends with a failure, and only that. */
  ghost predicate StopsAtFailure(cmds: seq<Command>, n: Node, l: seq<Entry>) {
    exists k: nat :: k < |cmds| && !cmds[k].blank && l == Done(cmds, n, k) + [Entry(n, k + 1, true)]
  }

  lemma AtMostOneJob(c: Config, s: State, n: Node)
    requires Inv(c, s)
    ensures NodesOf(s.jobs)[n] <= 1
    ensures n in s.abandoned && n < c.size ==> s.made[n].Unmade?
  {
    var claims := Claims(TableOf(s)) + multiset{};
    assert claims[n] <= 1;
    assert n in s.abandoned ==> claims[n] >= 1;
  }

  lemma TellsInOrder(cmds: seq<Command>, n: Node, made: Made, givenUp: bool, running: bool, k: nat, l: seq<Entry>)
    requires Tells(cmds, n, made, givenUp, running, k, l)
    ensures made.Remade? ==> l == Done(cmds, n, |cmds|)
    ensures Lost(made) ==> StopsAtFailure(cmds, n, l)
    ensures !Lost(made) ==> Prefix(cmds, n, l)
  {
    if Lost(made) {
      assert l == Done(cmds, n, k - 1) + [Entry(n, (k - 1) + 1, true)];
    } else if made.Remade? || givenUp {
      assert l == Done(cmds, n, |cmds|);
    } else if running {
      assert l == Done(cmds, n, k - 1);
    } else {
      assert l == Done(cmds, n, 0);
    }
  }

  /** The commands of a node run in list order and one at a time, and stop at the first failure
    * that counts: at every moment the log of the node holds a prefix of its non-blank commands,
    * all of them if it was made, and a failure only as the last entry, exactly if the node is
    * marked as failed. */
  lemma CommandsRunInOrder(c: Config, s: State, n: Node)
    requires Reachable(c, s) && n < c.size
    ensures var cmds, l := c.commands[n], LogOf(c, s.log, n);
      && (s.made[n].Remade? ==> l == Done(cmds, n, |cmds|))
      && (Lost(s.made[n]) ==> StopsAtFailure(cmds, n, l))
      && (!Lost(s.made[n]) ==> Prefix(cmds, n, l))
    ensures NodesOf(s.jobs)[n] <= 1
  {
    ReachableLog(c, s);
    AtMostOneJob(c, s, n);
    assert LogFits(c, s, n);
    TellsInOrder(c.commands[n], n, s.made[n], n in s.abandoned, NodesOf(s.jobs)[n] > 0, s.cursor[n], LogOf(c, s.log, n));
  }

  /** What a log that holds the first commands says of them. */
  lemma {:induction false} DoneSays(cmds: seq<Command>, n: Node, upto: nat, l: seq<Entry>)
    requires upto <= |cmds| && l == Done(cmds, n, upto)
    ensures forall i :: 0 <= i < |l| ==> 1 <= l[i].k <= upto && !cmds[l[i].k - 1].blank && !l[i].failed
    ensures forall i, j :: 0 <= i < j < |l| ==> l[i].k < l[j].k
    ensures forall k :: 1 <= k <= upto && !cmds[k - 1].blank ==> Entry(n, k, false) in l
  {
    if upto > 0 {
      DoneSays(cmds, n, upto - 1, Done(cmds, n, upto - 1));
    }
  }

  /** The runs of a node's commands, as their numbers and statuses tell it: they are in list order, and
    * none that is not blank is left out before another. */
  ghost predicate InOrder(cmds: seq<Command>, runs: seq<Ran>) {
    && (forall i :: 0 <= i < |runs| ==> 1 <= runs[i].k <= |cmds| && !cmds[runs[i].k - 1].blank)
    && (forall i, j :: 0 <= i < j < |runs| ==> runs[i].k < runs[j].k)
    && (forall i, k :: 0 <= i < |runs| && 1 <= k < runs[i].k && !cmds[k - 1].blank ==> HasRun(runs, k))
  }

  predicate HasRun(runs: seq<Ran>, k: nat) {
    exists i :: 0 <= i < |runs| && runs[i].k == k
  }

  lemma EntriesInOrder(c: Config, cmds: seq<Command>, n: Node, upto: nat, l: seq<Entry>, runs: seq<Ran>)
    requires Shaped(c) && upto <= |cmds| && |l| == |runs| && forall i :: 0 <= i < |l| ==> l[i] == Judged(c, runs[i])
    requires l == Done(cmds, n, upto) || (upto >= 1 && !cmds[upto - 1].blank && l == Done(cmds, n, upto - 1) + [Entry(n, upto, true)])
    ensures InOrder(cmds, runs)
    ensures forall i :: 0 <= i < |runs| ==> (l[i].failed <==> i == |l| - 1 && l != Done(cmds, n, upto))
    ensures forall k :: 1 <= k <= upto && !cmds[k - 1].blank ==> HasRun(runs, k)
  {
    var done := if l == Done(cmds, n, upto) then l else l[..|l| - 1];
    var m := if l == Done(cmds, n, upto) then upto else upto - 1;
    assert done == Done(cmds, n, m);
    DoneSays(cmds, n, m, done);
    forall k | 1 <= k <= upto && !cmds[k - 1].blank ensures HasRun(runs, k) {
      if k <= m {
        var i :| 0 <= i < |done| && done[i] == Entry(n, k, false);
        assert runs[i].k == k;
      } else {
        assert runs[|l| - 1].k == k;
      }
    }
    forall i | 0 <= i < |runs| ensures 1 <= runs[i].k <= upto && !cmds[runs[i].k - 1].blank {
      if i < |done| { assert done[i] == l[i]; }
    }
  }

  /** All runs but the last one have succeeded, or are excused by a '-' or .IGNORE; and the last one has not
    * exactly if the node has failed. */
  ghost predicate StopsAtTheFirst(ignore: bool, cmds: seq<Command>, runs: seq<Ran>, failed: bool)
    requires forall i :: 0 <= i < |runs| ==> 1 <= runs[i].k <= |cmds|
  {
    && (forall i :: 0 <= i < |runs| - 1 ==>
          runs[i].status.Exited? && (runs[i].status.code == 0 || cmds[runs[i].k - 1].dash || ignore))
    && (if runs == [] then !failed
        else
          var r := runs[|runs| - 1];
          failed <==> r.status.Killed? || (r.status.code != 0 && !cmds[r.k - 1].dash && !ignore))
  }

  lemma EntriesStop(c: Config, n: Node, upto: nat, l: seq<Entry>, runs: seq<Ran>)
    requires Shaped(c) && n < c.size && upto <= |c.commands[n]| && |l| == |runs|
    requires forall i :: 0 <= i < |l| ==> l[i] == Judged(c, runs[i]) && runs[i].node == n
    requires var cmds := c.commands[n];
      l == Done(cmds, n, upto) || (upto >= 1 && !cmds[upto - 1].blank && l == Done(cmds, n, upto - 1) + [Entry(n, upto, true)])
    ensures InOrder(c.commands[n], runs)
    ensures StopsAtTheFirst(c.attr[n].ignore, c.commands[n], runs, l != Done(c.commands[n], n, upto))
  {
    EntriesInOrder(c, c.commands[n], n, upto, l, runs);
    forall i | 0 <= i < |runs|
      ensures l[i].failed <==> Failing(c.attr[n].ignore, c.commands[n][runs[i].k - 1], runs[i].status)
    {
      assert l[i] == Judged(c, runs[i]);
    }
  }

  /** How far the log of a node has come. */
  lemma LogUpto(c: Config, s: State, n: Node) returns (upto: nat)
    requires Shaped(c) && Sized(c, s) && n < c.size && LogFits(c, s, n)
    ensures var cmds, l := c.commands[n], LogOf(c, s.log, n);
      && upto <= |cmds|
      && (if Lost(s.made[n]) then upto >= 1 && !cmds[upto - 1].blank && l == Done(cmds, n, upto - 1) + [Entry(n, upto, true)]
          else l == Done(cmds, n, upto))
      && (s.made[n].Remade? ==> upto == |cmds|)
  {
    var k := s.cursor[n];
    if Lost(s.made[n]) {
      upto := k;
    } else if s.made[n].Remade? || n in s.abandoned {
      upto := |c.commands[n]|;
    } else if NodesOf(s.jobs)[n] > 0 {
      upto := k - 1;
    } else {
      upto := 0;
    }
  }

  /** The commands of a node, by the statuses with which they ended: at every moment those that have been
    * run are the first ones that are not blank, in list order, all of them if the node was made; and the
    * node has failed exactly if the last of them was killed, or exited with an error while it has no
    * '-' and the node is not .IGNORE. */
  lemma RunsStopAtTheFirst(c: Config, s: State, n: Node)
    requires Reachable(c, s) && n < c.size
    ensures InOrder(c.commands[n], RunsOf(s.log, n))
    ensures StopsAtTheFirst(c.attr[n].ignore, c.commands[n], RunsOf(s.log, n), Lost(s.made[n]))
    ensures s.made[n].Remade? ==>
      forall k :: 1 <= k <= |c.commands[n]| && !c.commands[n][k - 1].blank ==> HasRun(RunsOf(s.log, n), k)
  {
    ReachableLog(c, s);
    assert LogFits(c, s, n);
    var upto := LogUpto(c, s, n);
    var l, runs := LogOf(c, s.log, n), RunsOf(s.log, n);
    LogIsJudged(c, s.log, n);
    EntriesInOrder(c, c.commands[n], n, upto, l, runs);
    if Lost(s.made[n]) { FailureIsExtra(c.commands[n], n, upto, l); }
    EntriesStop(c, n, upto, l, runs);
  }

  lemma FailureIsExtra(cmds: seq<Command>, n: Node, upto: nat, l: seq<Entry>)
    requires 1 <= upto <= |cmds| && l == Done(cmds, n, upto - 1) + [Entry(n, upto, true)] && !cmds[upto - 1].blank
    ensures l != Done(cmds, n, upto)
  {
    var d := Done(cmds, n, upto);
    assert d[|d| - 1] == Entry(n, upto, false) && l[|l| - 1] == Entry(n, upto, true);
  }

  /** What becomes of a node when its command ends: it fails exactly if the command was killed, or exited
    * with an error and neither the command has a '-' nor the node is .IGNORE.  It is marked as aborted
    * if the engine was aborting already, and each failure is counted; without -k it starts the abort. */
  lemma FailsExactlyWhen(c: Config, s: State, i: nat, status: Status, stamp: int)
    requires Reachable(c, s) && Enabled(s, DoExit(i, status, stamp))
    ensures var n, r := s.jobs[i].node, Exit(c, s, i, status, stamp);
      && n < c.size && 1 <= s.cursor[n] <= |c.commands[n]|
      && var cmd := c.commands[n][s.cursor[n] - 1];
         var fails := status.Killed? || (status.code != 0 && !cmd.dash && !c.attr[n].ignore);
      && !cmd.blank && r.log == s.log + [Ran(n, s.cursor[n], status)] && r.ftime == s.ftime[n := stamp]
      && (r.made[n].Failed? <==> fails && !s.aborting)
      && (r.made[n].Aborted? <==> fails && s.aborting)
      && r.errors == s.errors + (if fails then 1 else 0)
      && (r.aborting <==> s.aborting || (fails && !c.keepgoing))
  {
    ReachableInv(c, s);
    CountsExactly(c, s, i, status);
    RunningNode(c, s, i);
    ExitMarks(c, s, i, status, stamp);
  }

  /** The same, in terms of the job's flag. */
  lemma ExitMarks(c: Config, s: State, i: nat, status: Status, stamp: int)
    requires Shaped(c) && Sized(c, s) && i < |s.jobs| && s.made[s.jobs[i].node].Unmade?
    ensures var n, r, fails := s.jobs[i].node, Exit(c, s, i, status, stamp), Counts(status, s.jobs[i]);
      && r.log == s.log + [Ran(n, s.cursor[n], status)] && r.ftime == s.ftime[n := stamp]
      && (r.made[n].Failed? <==> fails && !s.aborting)
      && (r.made[n].Aborted? <==> fails && s.aborting)
      && r.errors == s.errors + (if fails then 1 else 0)
      && (r.aborting <==> s.aborting || (fails && !c.keepgoing))
  {
    if !Counts(status, s.jobs[i]) { StartFrame(c, Ended(s, i, status, stamp), Renew(c, s.jobs[i])); }
  }
}
