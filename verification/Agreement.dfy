/** The two engines side by side: where nothing can go wrong, both come to an end and make the same. */
module Agreement {
  import opened Graph
  import opened Scheduler
  import opened Protocol
  import opened JobTable
  import opened Readiness
  import opened Outcome
  import opened Limits
  import Compat
  import Maker

  /** Dependencies and .ORDER go down in rank. */
  ghost predicate Ranked(c: Config, rank: seq<nat>) {
    && Shaped(c) && |rank| == c.size
    && forall n: Node, y :: n < c.size && (y in c.children[n] || y in c.preds[n]) ==> y < c.size && rank[y] < rank[n]
  }

  lemma {:induction false} WalkGoesDown(c: Config, make: seq<bool>, rank: seq<nat>, p: seq<Node>)
    requires Ranked(c, rank) && |make| == c.size && |p| >= 2 && Walk(c, make, p)
    ensures p[0] < c.size && p[|p| - 1] < c.size && rank[p[|p| - 1]] < rank[p[0]]
    decreases |p|
  {
    assert Awaits(c, make, p[0], p[1]);
    if |p| > 2 {
      forall i | 0 <= i < |p[1..]| - 1 ensures Awaits(c, make, p[1..][i], p[1..][i + 1]) {
        assert Awaits(c, make, p[i + 1], p[i + 2]);
      }
      WalkGoesDown(c, make, rank, p[1..]);
    }
  }

  lemma RankedHasNoCycle(c: Config, make: seq<bool>, rank: seq<nat>)
    requires Ranked(c, rank) && |make| == c.size
    ensures !Cyclic(c, make)
  {
    if Cyclic(c, make) {
      var p :| |p| >= 2 && Walk(c, make, p) && p[0] == p[|p| - 1];
      WalkGoesDown(c, make, rank, p);
    }
  }

  /** A parallel run without an error of a graph in which nothing can go wrong is complete. */
  lemma HarmlessIsComplete(c: Config, ft0: seq<int>, post: seq<int>, results: seq<seq<bool>>, rank: seq<nat>, s: State)
    requires Compat.Harmless(c, ft0, results, rank) && Ranked(c, rank)
    requires ReachedWith(c, ft0, post, s) && (s.mode.Finished? || s.mode.Dead?) && s.errors == 0
    ensures CleanEnd(c, s) && s.numNodes == 0
  {
    var s0, actions :| Initial(c, s0) && s0.ftime == ft0 && Run(c, s0, actions, s) && Stamped(c, s0, actions, post);
    assert Acceptable(c, s0.make, s0.ftime);
    NothingIsRefused(c, s0, actions, s);
    assert Reachable(c, s);
    RankedHasNoCycle(c, s.make, rank);
  }

  /** The same commands exit with 0 for both engines, and all others are excused; each leaves its file
    * with a time that depends only on the node; every source exists or may be missing; and there is
    * no cycle. */
  ghost predicate AllWell(c: Config, files: seq<int>, post: seq<int>, results: seq<seq<bool>>, rank: seq<nat>,
      status: (nat, Node, nat) -> Status, stamp: (nat, Node) -> int) {
    && WellFormed(c) && |post| == c.size && Compat.Harmless(c, files, results, rank) && Ranked(c, rank)
    && (forall k: nat, n: Node, j: nat :: n < c.size && 1 <= j <= |c.commands[n]| && !c.commands[n][j - 1].blank ==>
          status(k, n, j).Exited? && (status(k, n, j).code == 0 <==> results[n][j - 1]))
    && (forall k: nat, n: Node :: n < c.size ==> stamp(k, n) == post[n])
  }

  /** What the parallel engine makes then. */
  method MakeParallel(c: Config, targets: seq<Node>, files: seq<int>, post: seq<int>, ghost results: seq<seq<bool>>,
      which: nat -> nat, status: (nat, Node, nat) -> Status, stamp: (nat, Node) -> int, ghost rank: seq<nat>)
    returns (maker: Maker.Engine)
    requires WellFormed(c) && Within(targets, c.size) && |files| == |post| == |results| == |rank| == c.size
    ensures fresh(maker) && maker.c == c && Compat.MarksReachable(c, targets, maker.make)
    ensures AllWell(c, files, post, results, rank, status, stamp) ==>
      && ReachedWith(c, files, post, maker.Now()) && maker.errors == 0
      && (maker.mode.Finished? || maker.mode.Dead?)
  {
    maker := new Maker.Engine(c, which, status, stamp, files);
    var died := maker.Run(targets, post);
  }

  /** What the sequential engine makes then. */
  method MakeSequential(c: Config, targets: seq<Node>, files: seq<int>, post: seq<int>, results: seq<seq<bool>>,
      ghost rank: seq<nat>)
    returns (compat: Compat.Engine)
    requires WellFormed(c) && Within(targets, c.size) && |files| == |post| == |results| == |rank| == c.size
    requires forall n: Node :: n < c.size ==> |results[n]| == |c.commands[n]|
    ensures fresh(compat) && compat.c == c && |compat.stage| == |compat.mtime| == c.size
    ensures Compat.Harmless(c, files, results, rank) ==>
      && Compat.CompatOutcome(c, files, post, targets, Compat.MadeMap(compat.stage), compat.mtime, compat.ftime)
      && !compat.exited
  {
    compat := new Compat.Engine(c, files, post, results, rank);
    compat.Run(targets);
  }

  /** Both engines make the targets.  If all is well, both come to an end without an error, and every
    * node below the targets has come out the same, in whatever order the jobs of the parallel one
    * ended. */
  method MakeBoth(c: Config, targets: seq<Node>, files: seq<int>, post: seq<int>, results: seq<seq<bool>>,
      which: nat -> nat, status: (nat, Node, nat) -> Status, stamp: (nat, Node) -> int, ghost rank: seq<nat>)
    returns (maker: Maker.Engine, compat: Compat.Engine)
    requires WellFormed(c) && Within(targets, c.size) && |files| == |post| == |results| == |rank| == c.size
    requires forall n: Node :: n < c.size ==> |results[n]| == |c.commands[n]|
    ensures maker.c == compat.c == c
    ensures AllWell(c, files, post, results, rank, status, stamp) ==>
      && maker.errors == 0 && maker.mode.Finished? && maker.numNodes == 0 && !compat.exited
      && |maker.made| == |maker.mtime| == |compat.stage| == |compat.mtime| == c.size
      && forall x: Node :: x < c.size && Compat.Below(c, targets, x) ==>
           && Settled(maker.made[x])
           && maker.made[x] == Compat.MadeOf(compat.stage[x]) && maker.mtime[x] == compat.mtime[x]
  {
    maker := MakeParallel(c, targets, files, post, results, which, status, stamp, rank);
    compat := MakeSequential(c, targets, files, post, results, rank);
    if AllWell(c, files, post, results, rank, status, stamp) {
      Agree(c, files, post, results, rank, targets, maker.Now(), Compat.MadeMap(compat.stage), compat.mtime, compat.ftime);
    }
  }

  lemma Agree(c: Config, ft0: seq<int>, post: seq<int>, results: seq<seq<bool>>, rank: seq<nat>, targets: seq<Node>,
      s: State, made: seq<Made>, mtime: seq<int>, ftime: seq<int>)
    requires Compat.Harmless(c, ft0, results, rank) && Ranked(c, rank)
    requires ReachedWith(c, ft0, post, s) && (s.mode.Finished? || s.mode.Dead?) && s.errors == 0
    requires Compat.MarksReachable(c, targets, s.make) && Compat.CompatOutcome(c, ft0, post, targets, made, mtime, ftime)
    ensures s.mode.Finished? && s.numNodes == 0
    ensures forall x: Node :: x < c.size && Compat.Below(c, targets, x) ==>
      Settled(s.made[x]) && s.made[x] == made[x] && s.mtime[x] == mtime[x]
  {
    HarmlessIsComplete(c, ft0, post, results, rank, s);
    CycleTheorem(c, s);
    Compat.ParallelEqualsSequential(c, c, ft0, post, s, targets, made, mtime, ftime);
  }
}
