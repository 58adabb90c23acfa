/** The outcome of a run does not depend on the schedule, and a second run has nothing to do. */
module Outcome {
  import opened Graph
  import opened Scheduler
  import opened Protocol
  import opened JobTable
  import opened Readiness
  import opened Commands
  import opened Times

  // --------------------------------------------- every step keeps TimesOk

  /** Moves that concern an unsettled node, or no node, leave the judgements alone. */
  lemma Unjudged(c: Config, ft0: seq<int>, s: State, n: Node, r: State)
    requires TimesOk(c, ft0, s) && Sized(c, r) && n < c.size && n in s.order
    requires r.make == s.make && r.order == s.order && r.cmtime == s.cmtime && r.childMade == s.childMade
    requires !Settled(s.made[n]) && !Settled(r.made[n])
    requires r.made == s.made[n := r.made[n]] && r.mtime == s.mtime[n := r.mtime[n]]
    requires r.ftime == s.ftime[n := r.ftime[n]]
    ensures TimesOk(c, ft0, r)
  {
    var m, t := r.made[n], r.mtime[n];
    forall p: Node | p < c.size
      ensures Newest(c, r.made, r.mtime, c.children[p]) == Newest(c, s.made, s.mtime, c.children[p])
      ensures AnyRemade(c, r.made, c.children[p]) == AnyRemade(c, s.made, c.children[p])
    {
      NewestSettles(c, s.made, s.mtime, n, m, t, c.children[p]);
      AnySettles(c, s.made, n, m, c.children[p]);
    }
  }

  lemma {:induction false} ExecKeepsTimes(c: Config, ft0: seq<int>, s: State, job: Job)
    requires WellFormed(c) && TimesOk(c, ft0, s) && job.node < c.size
    requires s.made[job.node].Unmade? && job.node in s.order && Awaited(c, s.order, job.node)
    ensures TimesOk(c, ft0, JobExec(c, s, job))
    decreases Unread(c, s, job), 0
  {
    var n, k := job.node, NextCommand(s, job);
    if k >= |c.commands[n]| {
      if s.aborting {
        Unjudged(c, ft0, s, n, Complete(c, s, n));
      } else {
        RemadeKeepsTimes(c, ft0, s, n);
      }
    } else {
      var read := s.(cursor := s.cursor[n := k + 1]);
      Unjudged(c, ft0, s, n, read);
      if c.commands[n][k].blank {
        StartKeepsTimes(c, ft0, read, Renew(c, job));
      } else {
        Unjudged(c, ft0, s, n, Launch(c, read, job.(ignerr := job.ignerr || c.commands[n][k].dash)));
      }
    }
  }

  lemma {:induction false} StartKeepsTimes(c: Config, ft0: seq<int>, s: State, job: Job)
    requires WellFormed(c) && TimesOk(c, ft0, s) && job.node < c.size
    requires s.made[job.node].Unmade? && job.node in s.order && Awaited(c, s.order, job.node)
    ensures TimesOk(c, ft0, JobStart(c, s, job))
    decreases Unread(c, s, job), 1
  {
    if s.nJobs >= c.maxJobs {
      Unjudged(c, ft0, s, job.node, Hold(c, s, job));
    } else {
      ExecKeepsTimes(c, ft0, s, job.(remote := s.nLocal >= c.maxLocal));
    }
  }

  lemma JobMakeKeepsTimes(c: Config, ft0: seq<int>, s: State, n: Node)
    requires WellFormed(c) && TimesOk(c, ft0, s) && n < c.size
    requires s.made[n].Unmade? && n in s.order && Awaited(c, s.order, n)
    ensures TimesOk(c, ft0, JobMake(c, s, n))
  {
    var s1, r := CheckCommands(c, s, n), JobMake(c, s, n);
    Unjudged(c, ft0, s, n, s1);
    if Unmakeable(c, s1, n) {
      Unjudged(c, ft0, s1, n, r);
    } else {
      var job := Job(n, true, false, false, c.attr[n].ignore);
      StartKeepsTimes(c, ft0, s1, job);
      var s2 := JobStart(c, s1, job);
      assert r == s2.(mode := r.mode);
    }
  }

  /** The state in which the head of the queue is judged. */
  lemma SeenTimes(c: Config, ft0: seq<int>, s: State)
    requires TimesOk(c, ft0, s) && s.toBeMade != []
    requires var n := s.toBeMade[0]; n !in s.order && s.made[n].Unmade? && s.make[n]
    ensures var n, r := s.toBeMade[0], Seen(c, s);
      && Sized(c, r) && Collected(c, r) && Timed(c, ft0, r)
      && r.mtime[n] == Looked(c, ft0, n)
      && IsOut(c, r, n) == Stale(c, ft0, r.made, r.mtime, n)
      && (forall x :: x in r.order && x < c.size && x != n ==>
            (r.made[x].UpToDate? <==> !Stale(c, ft0, r.made, r.mtime, x)))
  {
    var n, r := s.toBeMade[0], Seen(c, s);
    forall p: Node | p < c.size
      ensures Newest(c, r.made, r.mtime, c.children[p]) == Newest(c, s.made, s.mtime, c.children[p])
    {
      NewestSame(c, r.made, r.mtime, s.made, s.mtime, c.children[p]);
    }
  }

  lemma ExamineKeepsTimes(c: Config, ft0: seq<int>, s: State)
    requires WellFormed(c) && TimesOk(c, ft0, s) && s.toBeMade != []
    requires var n := s.toBeMade[0];
      n !in s.order && s.made[n].Unmade? && s.make[n] && Awaited(c, s.order + [n], n)
    ensures TimesOk(c, ft0, Examine(c, s))
  {
    var n, seen := s.toBeMade[0], Seen(c, s);
    if !Blocked(c, s, n) {
      SeenTimes(c, ft0, s);
      if IsOut(c, seen, n) {
        assert EachJudged(c, ft0, seen);
        JobMakeKeepsTimes(c, ft0, seen, n);
      } else {
        UpToDateKeepsTimes(c, ft0, seen, n);
      }
    }
  }

  /** The head of the queue is not a child of itself nor of an examined node. */
  lemma HeadIsAwaited(c: Config, s: State)
    requires Inv(c, s) && s.toBeMade != [] && !Blocked(c, s, s.toBeMade[0])
    ensures Awaited(c, s.order + [s.toBeMade[0]], s.toBeMade[0])
  {
    BeginKeepsCore(c, ProgressOf(s));
    IsAwaited(c, Begun(ProgressOf(s)), s.toBeMade[0]);
  }

  lemma ExitKeepsTimes(c: Config, ft0: seq<int>, s: State, i: nat, status: Status, stamp: int)
    requires WellFormed(c) && TimesOk(c, ft0, s) && i < |s.jobs|
    requires var n := s.jobs[i].node; s.made[n].Unmade? && n in s.order && Awaited(c, s.order, n)
    ensures TimesOk(c, ft0, Exit(c, s, i, status, stamp))
  {
    var job, s1 := s.jobs[i], Ended(s, i, status, stamp);
    Unjudged(c, ft0, s, job.node, s1);
    if Counts(status, job) {
      Unjudged(c, ft0, s1, job.node, Fail(c, s1, job.node));
    } else {
      StartKeepsTimes(c, ft0, s1, Renew(c, job));
    }
  }

  lemma RestartKeepsTimes(c: Config, ft0: seq<int>, s: State)
    requires WellFormed(c) && TimesOk(c, ft0, s) && s.held != [] && s.nJobs < c.maxJobs
    requires var n := s.held[0].node; s.made[n].Unmade? && n in s.order && Awaited(c, s.order, n)
    ensures TimesOk(c, ft0, JobRestart(c, s))
  {
    var job, s1 := s.held[0], s.(held := s.held[1..]);
    Unjudged(c, ft0, s, job.node, s1);
    ExecKeepsTimes(c, ft0, s1, job.(remote := s.nLocal >= c.maxLocal));
  }

  lemma ExamineStepKeepsTimes(c: Config, ft0: seq<int>, s: State)
    requires Inv(c, s) && TimesOk(c, ft0, s) && s.toBeMade != []
    ensures TimesOk(c, ft0, Examine(c, s))
  {
    QueueHead(c, s);
    if Blocked(c, s, s.toBeMade[0]) {
      assert Examine(c, s) == s.(toBeMade := s.toBeMade[1..]);
    } else {
      HeadIsAwaited(c, s);
      ExamineKeepsTimes(c, ft0, s);
    }
  }

  lemma RestartStepKeepsTimes(c: Config, ft0: seq<int>, s: State)
    requires Inv(c, s) && TimesOk(c, ft0, s) && Enabled(s, Restart)
    ensures TimesOk(c, ft0, JobRestart(c, s))
  {
    HeldNode(c, s);
    IsAwaited(c, ProgressOf(s), s.held[0].node);
    RestartKeepsTimes(c, ft0, s);
  }

  lemma StepKeepsTimes(c: Config, ft0: seq<int>, s: State, a: Action)
    requires Inv(c, s) && TimesOk(c, ft0, s) && Enabled(s, a)
    ensures TimesOk(c, ft0, Apply(c, s, a))
  {
    match a
    case DoExamine => ExamineStepKeepsTimes(c, ft0, s);
    case Restart => RestartStepKeepsTimes(c, ft0, s);
    case DoExit(i, status, stamp) =>
      RunningNode(c, s, i);
      IsAwaited(c, ProgressOf(s), s.jobs[i].node);
      ExitKeepsTimes(c, ft0, s, i, status, stamp);
    case _ =>
  }

  lemma {:induction false} RunKeepsTimes(c: Config, ft0: seq<int>, s0: State, actions: seq<Action>, s1: State)
    requires Inv(c, s0) && TimesOk(c, ft0, s0) && Run(c, s0, actions, s1)
    ensures Inv(c, s1) && TimesOk(c, ft0, s1)
    decreases |actions|
  {
    if actions != [] {
      StepKeeps(c, s0, actions[0]);
      StepKeepsTimes(c, ft0, s0, actions[0]);
      RunKeepsTimes(c, ft0, Apply(c, s0, actions[0]), actions[1..], s1);
    }
  }

  lemma {:induction false} NothingReported(c: Config, made: seq<Made>, mtime: seq<int>, kids: seq<Node>)
    requires Shaped(c) && |made| == |mtime| == c.size && Within(kids, c.size)
    requires forall x :: 0 <= x < c.size ==> made[x].Unmade?
    ensures Newest(c, made, mtime, kids) == 0 && !AnyRemade(c, made, kids)
  {
    if kids != [] {
      assert Within(kids[1..], c.size);
      NothingReported(c, made, mtime, kids[1..]);
    }
  }

  lemma InitialTimes(c: Config, s: State)
    requires Initial(c, s)
    ensures TimesOk(c, s.ftime, s)
  {
    forall p: Node | p < c.size
      ensures Newest(c, s.made, s.mtime, c.children[p]) == 0 && !AnyRemade(c, s.made, c.children[p])
    {
      NothingReported(c, s.made, s.mtime, c.children[p]);
    }
  }

  // ------------------------------------------------------ what the verdicts say

  /** The child has told its parents its time: it has been found up to date or made, but a node that is
    * .EXEC and was made tells nothing. */
  predicate Speaks(c: Config, made: seq<Made>, y: Node)
    requires Shaped(c) && |made| == c.size && y < c.size
  {
    made[y].UpToDate? || (made[y].Remade? && !c.attr[y].exec)
  }

  lemma {:induction false} NewestAtMost(c: Config, made: seq<Made>, mtime: seq<int>, kids: seq<Node>, t: int)
    requires Shaped(c) && |made| == |mtime| == c.size && Within(kids, c.size)
    ensures Newest(c, made, mtime, kids) <= t <==>
      0 <= t && forall y :: y in kids && Speaks(c, made, y) ==> mtime[y] <= t
  {
    if kids != [] {
      assert Within(kids[1..], c.size);
      NewestAtMost(c, made, mtime, kids[1..], t);
      assert kids == [kids[0]] + kids[1..];
    }
  }

  lemma AnyRemadeSays(c: Config, made: seq<Made>, kids: seq<Node>)
    requires Shaped(c) && |made| == c.size && Within(kids, c.size)
    ensures AnyRemade(c, made, kids) <==> !forall y :: y in kids && y < c.size ==> !made[y].Remade? || c.attr[y].exec
  {
    if y :| y in kids && y < c.size && made[y].Remade? && !c.attr[y].exec {
      var i :| 0 <= i < |kids| && kids[i] == y;
    }
  }

  /** The verdict on n, by how its children came out and by the time its file had at first: a .JOIN node
    * is out of date if a child was made; a node with '!' or .EXEC always; any other one if a child is
    * younger, or if none has a time and the node has no file or is on the left of '::'. */
  ghost predicate RightVerdict(c: Config, ft0: seq<int>, made: seq<Made>, mtime: seq<int>, n: Node)
    requires Shaped(c) && |ft0| == |made| == |mtime| == c.size && n < c.size
  {
    made[n].UpToDate? <==>
      if c.attr[n].join then
        forall y :: y in c.children[n] && y < c.size ==> !made[y].Remade? || c.attr[y].exec
      else
        && !c.attr[n].force && !c.attr[n].exec && 0 <= ft0[n]
        && (forall y :: y in c.children[n] && y < c.size && Speaks(c, made, y) ==> mtime[y] <= ft0[n])
        && ((exists y :: y in c.children[n] && y < c.size && Speaks(c, made, y) && mtime[y] > 0)
            || (ft0[n] != 0 && !c.attr[n].doubleDep))
  }

  lemma VerdictIsRight(c: Config, ft0: seq<int>, made: seq<Made>, mtime: seq<int>, n: Node)
    requires Shaped(c) && |ft0| == |made| == |mtime| == c.size && n < c.size
    requires made[n].UpToDate? <==> !Stale(c, ft0, made, mtime, n)
    ensures RightVerdict(c, ft0, made, mtime, n)
  {
    var kids := c.children[n];
    NewestAtMost(c, made, mtime, kids, ft0[n]);
    NewestAtMost(c, made, mtime, kids, 0);
    NewestAtMost(c, made, mtime, kids, -1);
    AnyRemadeSays(c, made, kids);
  }

  /** In a run of the parallel engine every examined node gets that verdict; a node that is up to date has
    * the time its file had at first, and one that was made the time its file has now, or that of the run. */
  lemma VerdictsSay(c: Config, s0: State, actions: seq<Action>, s: State, n: Node)
    requires Initial(c, s0) && Run(c, s0, actions, s) && n < c.size && n in s.order && Sized(c, s)
    ensures RightVerdict(c, s0.ftime, s.made, s.mtime, n)
    ensures s.made[n].UpToDate? ==> s.mtime[n] == if c.attr[n].join then 0 else s0.ftime[n]
    ensures s.made[n].Remade? ==> s.mtime[n] == if s.ftime[n] == 0 then c.now else s.ftime[n]
  {
    InitialInv(c, s0);
    InitialTimes(c, s0);
    RunKeepsTimes(c, s0.ftime, s0, actions, s);
    VerdictIsRight(c, s0.ftime, s.made, s.mtime, n);
  }

  // ------------------------------------------------------ files and stamps

  lemma JudgeTouchesNoFile(c: Config, s: State, n: Node)
    requires Shaped(c) && Sized(c, s) && n < c.size
    ensures var r := Judge(c, s, n); r.ftime == s.ftime && r.log == s.log && r.make == s.make && r.errors == s.errors
  {
    if IsOut(c, s, n) {
      StartFrame(c, CheckCommands(c, s, n), Job(n, true, false, false, c.attr[n].ignore));
    } else {
      UpdateFrame(c, PassOver(c, s, n), n);
    }
  }

  lemma RestartTouchesNoFile(c: Config, s: State)
    requires Shaped(c) && Sized(c, s) && s.held != []
    ensures var r := JobRestart(c, s); r.ftime == s.ftime && r.log == s.log && r.make == s.make && r.errors == s.errors
  {
    var job, s1 := s.held[0], s.(held := s.held[1..]);
    if s.nLocal >= c.maxLocal {
      ExecFrame(c, s1, job.(remote := true));
    } else {
      ExecFrame(c, s1, job.(remote := false));
    }
  }

  /** Only the end of a command touches a file. */
  lemma OnlyExitsTouchFiles(c: Config, s: State, a: Action)
    requires Shaped(c) && Sized(c, s) && Enabled(s, a) && !a.DoExit?
    ensures var r := Apply(c, s, a); r.ftime == s.ftime && r.log == s.log && r.make == s.make && r.errors == s.errors
  {
    match a
    case DoExamine =>
      if !Blocked(c, s, s.toBeMade[0]) { JudgeTouchesNoFile(c, Seen(c, s), s.toBeMade[0]); }
    case Restart => RestartTouchesNoFile(c, s);
    case _ =>
  }

  lemma ExitTouchesOneFile(c: Config, s: State, i: nat, status: Status, stamp: int)
    requires Shaped(c) && Sized(c, s) && i < |s.jobs|
    ensures var n, r := s.jobs[i].node, Exit(c, s, i, status, stamp);
      r.ftime == s.ftime[n := stamp] &&
      r.log == s.log + [Ran(n, s.cursor[n], status)] && r.make == s.make &&
      r.errors == s.errors + if Counts(status, s.jobs[i]) then 1 else 0
  {
    var job, s1 := s.jobs[i], Ended(s, i, status, stamp);
    if !Counts(status, job) { StartFrame(c, s1, Renew(c, job)); }
  }

  /** The commands of a node leave its file with a time that depends only on the node. */
  ghost predicate Stamped(c: Config, s0: State, actions: seq<Action>, post: seq<int>)
    requires Shaped(c) && Sized(c, s0) && |post| == c.size
    decreases |actions|
  {
    actions == [] ||
    (&& Enabled(s0, actions[0])
     && (actions[0].DoExit? ==> actions[0].stamp == post[s0.jobs[actions[0].i].node])
     && Stamped(c, Apply(c, s0, actions[0]), actions[1..], post))
  }

  ghost predicate Filed(c: Config, ft0: seq<int>, post: seq<int>, s: State)
    requires Shaped(c) && Sized(c, s) && |ft0| == |post| == c.size
  {
    forall n: Node :: n < c.size ==> s.ftime[n] == if LogOf(c, s.log, n) == [] then ft0[n] else post[n]
  }

  lemma StepKeepsFiled(c: Config, ft0: seq<int>, post: seq<int>, s: State, a: Action)
    requires Shaped(c) && Sized(c, s) && |ft0| == |post| == c.size && Filed(c, ft0, post, s) && Enabled(s, a)
    requires a.DoExit? ==> a.stamp == post[s.jobs[a.i].node]
    ensures Filed(c, ft0, post, Apply(c, s, a))
  {
    if a.DoExit? {
      ExitTouchesOneFile(c, s, a.i, a.status, a.stamp);
      var n := s.jobs[a.i].node;
      var last := Ran(n, s.cursor[n], a.status);
      forall m: Node | m < c.size
        ensures LogOf(c, s.log + [last], m) == LogOf(c, s.log, m) + if n == m then [Judged(c, last)] else []
      {
        LogGrows(c, s.log, last, m);
      }
    } else {
      OnlyExitsTouchFiles(c, s, a);
    }
  }

  lemma {:induction false} RunKeepsFiled(c: Config, ft0: seq<int>, post: seq<int>, s0: State, actions: seq<Action>, s1: State)
    requires Shaped(c) && Sized(c, s0) && |ft0| == |post| == c.size && Filed(c, ft0, post, s0)
    requires Run(c, s0, actions, s1) && Stamped(c, s0, actions, post)
    ensures Sized(c, s1) && Filed(c, ft0, post, s1)
    decreases |actions|
  {
    if actions != [] {
      StepKeepsFiled(c, ft0, post, s0, actions[0]);
      RunKeepsFiled(c, ft0, post, Apply(c, s0, actions[0]), actions[1..], s1);
    }
  }

  // ------------------------------------------------- schedule independence

  /** Every settled node's children have settled, and its state and time follow from theirs, from
    * the time its file had at first and the time its file has now. */
  ghost predicate Coherent(c: Config, ft0: seq<int>, made: seq<Made>, mtime: seq<int>, ftime: seq<int>) {
    && Shaped(c) && |ft0| == |made| == |mtime| == |ftime| == c.size
    && (forall x, y :: 0 <= x < c.size && Settled(made[x]) && y in c.children[x] && 0 <= y < c.size ==>
          Settled(made[y]))
    && (forall x: Node :: x < c.size && Settled(made[x]) ==>
          && (made[x].UpToDate? <==> !Stale(c, ft0, made, mtime, x))
          && mtime[x] == if made[x].UpToDate? then Looked(c, ft0, x) else Rechecked(c, ftime[x]))
  }

  /** The same for every coherent outcome, and so for the sequential engine. */
  lemma CoherentSays(c: Config, ft0: seq<int>, made: seq<Made>, mtime: seq<int>, ftime: seq<int>, n: Node)
    requires Coherent(c, ft0, made, mtime, ftime) && n < c.size && Settled(made[n])
    ensures forall y :: y in c.children[n] && y < c.size ==> Settled(made[y])
    ensures RightVerdict(c, ft0, made, mtime, n)
    ensures made[n].UpToDate? ==> mtime[n] == if c.attr[n].join then 0 else ft0[n]
    ensures made[n].Remade? ==> mtime[n] == if ftime[n] == 0 then c.now else ftime[n]
  {
    VerdictIsRight(c, ft0, made, mtime, n);
  }

  /** The nodes of the order come after their children. */
  ghost predicate ChildrenFirst(c: Config, order: seq<Node>)
    requires Shaped(c)
  {
    && (forall i :: 0 <= i < |order| ==> order[i] < c.size)
    && (forall i, y :: 0 <= i < |order| && y in c.children[order[i]] ==> y in order[..i])
  }

  ghost predicate AgreeAt(made: seq<Made>, mtime: seq<int>, made': seq<Made>, mtime': seq<int>, x: Node) {
    && x < |made| && x < |made'| && x < |mtime| && x < |mtime'|
    && (Settled(made[x]) && Settled(made'[x]) ==> made[x] == made'[x] && mtime[x] == mtime'[x])
  }

  /** A node whose children came out alike comes out alike. */
  lemma SameKidsAgree(c: Config, ft0: seq<int>, x: Node,
      made: seq<Made>, mtime: seq<int>, ftime: seq<int>, made': seq<Made>, mtime': seq<int>, ftime': seq<int>)
    requires Coherent(c, ft0, made, mtime, ftime) && Coherent(c, ft0, made', mtime', ftime')
    requires x < c.size && (made[x].Remade? && made'[x].Remade? ==> ftime[x] == ftime'[x])
    requires forall y :: y in c.children[x] ==> AgreeAt(made, mtime, made', mtime', y)
    ensures AgreeAt(made, mtime, made', mtime', x)
  {
    if Settled(made[x]) && Settled(made'[x]) {
      var kids := c.children[x];
      forall j | 0 <= j < |kids| ensures made[kids[j]] == made'[kids[j]] && mtime[kids[j]] == mtime'[kids[j]] {
        assert kids[j] in kids && AgreeAt(made, mtime, made', mtime', kids[j]);
      }
      NewestSame(c, made, mtime, made', mtime', kids);
      assert AnyRemade(c, made, kids) == AnyRemade(c, made', kids);
    }
  }

  lemma EarlierKidsAgree(c: Config, order: seq<Node>, k: nat,
      made: seq<Made>, mtime: seq<int>, made': seq<Made>, mtime': seq<int>)
    requires Shaped(c) && ChildrenFirst(c, order) && k < |order|
    requires forall i :: 0 <= i < k ==> AgreeAt(made, mtime, made', mtime', order[i])
    ensures forall y :: y in c.children[order[k]] ==> AgreeAt(made, mtime, made', mtime', y)
  {
    forall y | y in c.children[order[k]] ensures AgreeAt(made, mtime, made', mtime', y) {
      assert y in order[..k];
      var i :| 0 <= i < k && order[i] == y;
    }
  }

  ghost predicate KidsAgree(c: Config, made: seq<Made>, mtime: seq<int>, made': seq<Made>, mtime': seq<int>, x: Node)
    requires Shaped(c)
  {
    x < c.size && forall y :: y in c.children[x] ==> AgreeAt(made, mtime, made', mtime', y)
  }

  /** Agreement spreads from children to parents along the order. */
  lemma {:induction false} AgreementSpreads(c: Config, order: seq<Node>, k: nat,
      made: seq<Made>, mtime: seq<int>, made': seq<Made>, mtime': seq<int>)
    requires Shaped(c) && ChildrenFirst(c, order) && k <= |order|
    requires forall x: Node :: KidsAgree(c, made, mtime, made', mtime', x) ==> AgreeAt(made, mtime, made', mtime', x)
    ensures forall i :: 0 <= i < k ==> AgreeAt(made, mtime, made', mtime', order[i])
  {
    if k > 0 {
      AgreementSpreads(c, order, k - 1, made, mtime, made', mtime');
      EarlierKidsAgree(c, order, k - 1, made, mtime, made', mtime');
      assert KidsAgree(c, made, mtime, made', mtime', order[k - 1]);
    }
  }

  /** Two coherent outcomes agree wherever both have settled. */
  lemma CoherentAgree(c: Config, ft0: seq<int>, order: seq<Node>,
      made: seq<Made>, mtime: seq<int>, ftime: seq<int>, made': seq<Made>, mtime': seq<int>, ftime': seq<int>)
    requires Coherent(c, ft0, made, mtime, ftime) && Coherent(c, ft0, made', mtime', ftime')
    requires ChildrenFirst(c, order)
    requires forall x: Node :: x < c.size && made[x].Remade? && made'[x].Remade? ==> ftime[x] == ftime'[x]
    ensures forall x :: x in order ==> AgreeAt(made, mtime, made', mtime', x)
  {
    forall x: Node | KidsAgree(c, made, mtime, made', mtime', x) ensures AgreeAt(made, mtime, made', mtime', x) {
      SameKidsAgree(c, ft0, x, made, mtime, ftime, made', mtime', ftime');
    }
    AgreementSpreads(c, order, |order|, made, mtime, made', mtime');
  }

  /** s is reached by a run in which files start as in ft0 and commands leave them as in post. */
  ghost predicate ReachedWith(c: Config, ft0: seq<int>, post: seq<int>, s: State) {
    && WellFormed(c) && Sized(c, s) && |ft0| == |post| == c.size
    && exists s0, actions :: Initial(c, s0) && s0.ftime == ft0 && Run(c, s0, actions, s) && Stamped(c, s0, actions, post)
  }

  lemma ReachedFacts(c: Config, ft0: seq<int>, post: seq<int>, s: State)
    requires ReachedWith(c, ft0, post, s)
    ensures Inv(c, s) && LogOk(c, s, {}) && TimesOk(c, ft0, s) && Filed(c, ft0, post, s)
  {
    var s0, actions :| Initial(c, s0) && s0.ftime == ft0 && Run(c, s0, actions, s) && Stamped(c, s0, actions, post);
    InitialInv(c, s0);
    InitialTimes(c, s0);
    RunKeepsLog(c, s0, actions, s);
    RunKeepsTimes(c, ft0, s0, actions, s);
    RunKeepsFiled(c, ft0, post, s0, actions, s);
  }

  lemma RunIsCoherent(c: Config, ft0: seq<int>, s: State)
    requires Inv(c, s) && TimesOk(c, ft0, s)
    ensures Coherent(c, ft0, s.made, s.mtime, s.ftime) && ChildrenFirst(c, s.order)
    ensures forall x: Node :: x < c.size && Settled(s.made[x]) ==> x in s.order
  {
    forall i | 0 <= i < |s.order|
      ensures s.order[i] < c.size
      ensures forall y :: y in c.children[s.order[i]] ==> y in s.order[..i] && y < c.size && Settled(s.made[y])
    {
      assert Justified(c, ProgressOf(s), i);
    }
    forall x, y | 0 <= x < c.size && Settled(s.made[x]) && y in c.children[x] && 0 <= y < c.size
      ensures Settled(s.made[y])
    {
      var i :| 0 <= i < |s.order| && s.order[i] == x;
    }
  }

  predicate HasCommand(c: Config, x: Node)
    requires Shaped(c) && x < c.size
  {
    exists k :: 0 <= k < |c.commands[x]| && !c.commands[x][k].blank
  }

  lemma {:induction false} DoneOfBlanks(cmds: seq<Command>, n: Node, upto: nat)
    requires upto <= |cmds|
    ensures Done(cmds, n, upto) == [] <==> forall k :: 0 <= k < upto ==> cmds[k].blank
  {
    if upto > 0 { DoneOfBlanks(cmds, n, upto - 1); }
  }

  /** A remade node has touched its file exactly if it has something to execute. */
  lemma TouchedIfCommand(c: Config, s: State, x: Node)
    requires Shaped(c) && Sized(c, s) && LogOk(c, s, {}) && x < c.size
    ensures s.made[x].Remade? ==> (LogOf(c, s.log, x) != [] <==> HasCommand(c, x))
    ensures s.made[x].UpToDate? && x !in s.abandoned && NodesOf(s.jobs)[x] == 0 ==> LogOf(c, s.log, x) == []
  {
    assert LogFits(c, s, x);
    DoneOfBlanks(c.commands[x], x, |c.commands[x]|);
  }

  /** The two configurations differ only in how much is done at a time, and in which commands count as
    * blank; but they find something to execute for the same nodes. */
  predicate SameWork(c: Config, c': Config) {
    && Shaped(c) && Shaped(c')
    && c' == c.(maxJobs := c'.maxJobs, maxLocal := c'.maxLocal, keepgoing := c'.keepgoing,
                preds := c'.preds, successors := c'.successors, commands := c'.commands)
    && forall x: Node :: x < c.size ==> HasCommand(c, x) == HasCommand(c', x)
  }

  lemma {:induction false} NewestOfSameWork(c: Config, c': Config, made: seq<Made>, mtime: seq<int>, kids: seq<Node>)
    requires Shaped(c) && Shaped(c') && SameWork(c, c')
    requires |made| == |mtime| == c.size && Within(kids, c.size)
    ensures Newest(c, made, mtime, kids) == Newest(c', made, mtime, kids)
  {
    if kids != [] {
      assert Within(kids[1..], c.size);
      NewestOfSameWork(c, c', made, mtime, kids[1..]);
    }
  }

  lemma CoherentForSameWork(c: Config, c': Config, ft0: seq<int>, made: seq<Made>, mtime: seq<int>, ftime: seq<int>)
    requires Shaped(c) && SameWork(c, c') && Coherent(c', ft0, made, mtime, ftime)
    ensures Coherent(c, ft0, made, mtime, ftime)
  {
    forall x: Node | x < c.size ensures Stale(c, ft0, made, mtime, x) == Stale(c', ft0, made, mtime, x) {
      NewestOfSameWork(c, c', made, mtime, c.children[x]);
    }
  }

  /** Two runs over the same graph and files, whatever their job limits, .ORDER edges, -k flag and
    * the order in which jobs ended, and however far they got, failures or not: every node that has
    * been through Make_Update in both has the same state and the same time. */
  lemma ScheduleIndependence(c: Config, c': Config, ft0: seq<int>, post: seq<int>, s: State, s': State, x: Node)
    requires ReachedWith(c, ft0, post, s) && ReachedWith(c', ft0, post, s') && SameWork(c, c')
    requires x < c.size && Settled(s.made[x]) && Settled(s'.made[x])
    ensures s.made[x] == s'.made[x] && s.mtime[x] == s'.mtime[x]
  {
    ReachedFacts(c, ft0, post, s);
    ReachedFacts(c', ft0, post, s');
    RunIsCoherent(c, ft0, s);
    RunIsCoherent(c', ft0, s');
    CoherentForSameWork(c, c', ft0, s'.made, s'.mtime, s'.ftime);
    forall y: Node | y < c.size && s.made[y].Remade? && s'.made[y].Remade? ensures s.ftime[y] == s'.ftime[y] {
      TouchedIfCommand(c, s, y);
      TouchedIfCommand(c', s', y);
    }
    CoherentAgree(c, ft0, s.order, s.made, s.mtime, s.ftime, s'.made, s'.mtime, s'.ftime);
    assert AgreeAt(s.made, s.mtime, s'.made, s'.mtime, x);
  }

  /** A complete run without failures: every marked node has settled, every other is untouched. */
  lemma CompleteEnd(c: Config, s: State, x: Node)
    requires CleanEnd(c, s) && s.numNodes == 0 && x < c.size
    ensures if s.make[x] then Settled(s.made[x]) else s.made[x].Unmade?
  {
    CycleTheorem(c, s);
    CleanEndFacts(c, s);
    ReachableInv(c, s);
  }

  /** Complete runs without failures end with the same map of states. */
  lemma CompleteRunsAgree(c: Config, c': Config, ft0: seq<int>, post: seq<int>, s: State, s': State)
    requires ReachedWith(c, ft0, post, s) && ReachedWith(c', ft0, post, s') && SameWork(c, c')
    requires CleanEnd(c, s) && CleanEnd(c', s') && s.numNodes == 0 && s'.numNodes == 0 && s.make == s'.make
    ensures s.made == s'.made
  {
    forall x: Node | x < c.size ensures s.made[x] == s'.made[x] {
      CompleteEnd(c, s, x);
      CompleteEnd(c', s', x);
      if s.make[x] { ScheduleIndependence(c, c', ft0, post, s, s', x); }
    }
  }
}
