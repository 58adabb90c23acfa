/** The main results about readiness, failure and termination of a parallel run. */
module Readiness {
  import opened Graph
  import opened Scheduler
  import opened Protocol
  import opened JobTable

  /** The state in which Make_Run has marked the graph and enters MakeStartJobs. */
  ghost predicate Initial(c: Config, s: State) {
    && WellFormed(c) && Sized(c, s)
    && (forall x :: 0 <= x < c.size ==> s.made[x].Unmade? && s.unmade[x] == |c.children[x]|)
    && MarkOk(c, s.make)
    && s.numNodes == |Marked(s.make)|
    && Distinct(s.toBeMade)
    && (forall x: Node :: x in s.toBeMade <==> x < c.size && s.make[x] && s.unmade[x] == 0)
    && s.jobs == s.held == [] && s.nJobs == s.nLocal == 0 && !s.jobFull
    && s.errors == 0 && !s.aborting && s.mode == Filling
    && s.order == s.refused == s.abandoned == [] && s.log == []
    && (forall x :: 0 <= x < c.size ==> s.mtime[x] == s.cmtime[x] == 0 && !s.childMade[x])
  }

  ghost predicate Reachable(c: Config, s: State) {
    WellFormed(c) && Sized(c, s) && exists s0, actions :: Initial(c, s0) && Run(c, s0, actions, s)
  }

  lemma {:induction false} AllUnsettled(made: seq<Made>, xs: seq<Node>)
    requires Within(xs, |made|) && forall x :: 0 <= x < |made| ==> made[x].Unmade?
    ensures Unsettled(made, xs) == |xs|
  {
    if xs != [] {
      assert Within(xs[1..], |made|);
      AllUnsettled(made, xs[1..]);
    }
  }

  lemma InitialInv(c: Config, s: State)
    requires Initial(c, s)
    ensures Inv(c, s)
  {
    forall x | 0 <= x < c.size ensures s.unmade[x] == Unsettled(s.made, c.children[x]) {
      AllUnsettled(s.made, c.children[x]);
    }
    assert Claims(TableOf(s)) + multiset{} == multiset{};
  }

  lemma ReachableInv(c: Config, s: State)
    requires Reachable(c, s)
    ensures Inv(c, s)
  {
    var s0, actions :| Initial(c, s0) && Run(c, s0, actions, s);
    InitialInv(c, s0);
    RunKeeps(c, s0, actions, s);
  }

  // ------------------------------------------------------------- counters

  /** The positions in x's list of children whose node has not been through Make_Update. */
  ghost function OpenEdges(c: Config, s: State, x: Node): set<nat>
    requires Shaped(c) && Sized(c, s) && x < c.size
  {
    set i: nat | i < |c.children[x]| && !Settled(s.made[c.children[x][i]])
  }

  lemma {:induction false} UnsettledIsSize(made: seq<Made>, xs: seq<Node>)
    requires Within(xs, |made|)
    ensures Unsettled(made, xs) == |set i: nat | i < |xs| && !Settled(made[xs[i]])|
  {
    var all := set i: nat | i < |xs| && !Settled(made[xs[i]]);
    if xs == [] {
      assert all == {};
    } else {
      var rest := xs[1..];
      assert Within(rest, |made|);
      UnsettledIsSize(made, rest);
      var tail := set i: nat | i < |rest| && !Settled(made[rest[i]]);
      var moved := set i | i in tail :: i + 1;
      SizeOfShift(tail, moved);
      assert all == moved + (if Settled(made[xs[0]]) then {} else {0}) by {
        forall i | i in all ensures i == 0 || i in moved {
          if i > 0 { assert i - 1 in tail; }
        }
      }
    }
  }

  lemma {:induction false} SizeOfShift(a: set<nat>, b: set<nat>)
    requires b == set i | i in a :: i + 1
    ensures |a| == |b|
    decreases |a|
  {
    if a != {} {
      var x :| x in a;
      assert x + 1 in b;
      var rest := set i | i in a - {x} :: i + 1;
      forall y | y in b - {x + 1} ensures y in rest {
        var i :| i in a && y == i + 1;
        assert i in a - {x};
      }
      assert b - {x + 1} == rest;
      SizeOfShift(a - {x}, b - {x + 1});
    }
  }

  /** In every reachable state, cyclic graphs included, the counter of a marked node is exactly
    * its number of open child edges; it is never negative; and an examined node has none. */
  lemma CountersAreExact(c: Config, s: State, x: Node)
    requires Reachable(c, s) && x < c.size && s.make[x]
    ensures s.unmade[x] == |OpenEdges(c, s, x)|
    ensures x in s.order ==> s.unmade[x] == 0
  {
    ReachableInv(c, s);
    UnsettledIsSize(s.made, c.children[x]);
    if x in s.order {
      var i :| 0 <= i < |s.order| && s.order[i] == x;
      assert Justified(c, ProgressOf(s), i);
    }
  }

  // -------------------------------------------------------------- wake-ups

  ghost predicate Working(s: State, x: Node) {
    (exists j :: j in s.jobs && j.node == x) || (exists j :: j in s.held && j.node == x)
  }

  lemma ExaminedIsSomewhere(c: Config, s: State, x: Node)
    requires Reachable(c, s) && x in s.order && x < c.size && s.made[x].Unmade?
    ensures Working(s, x) || x in s.refused || x in s.abandoned
  {
    ReachableInv(c, s);
    assert (Claims(TableOf(s)) + multiset{})[x] == 1;
    assert x in NodesOf(s.jobs) || x in NodesOf(s.held) || x in s.refused || x in s.abandoned;
    if x in NodesOf(s.jobs) { JobOfNode(s.jobs, x); }
    if x in NodesOf(s.held) { JobOfNode(s.held, x); }
  }

  /** No lost wake-up: a ready node that is still Unmade is queued, running, held, given up, or
    * waits for a predecessor.  The one way to lose a wake-up is a predecessor that failed after
    * the node had been put aside for it; ForgottenExactlyWhen says when that is.  In module Mishaps,
    * KeepGoingGivesUpEarly has a node that is refused, GivenUpDuringAbort one that is abandoned, and
    * WakeUpCanBeLost one that is stranded. */
  lemma NoLostWakeUp(c: Config, s: State, x: Node)
    requires Reachable(c, s) && x < c.size && s.make[x] && s.made[x].Unmade? && s.unmade[x] == 0
    ensures || x in s.toBeMade
            || Working(s, x)
            || x in s.refused || x in s.abandoned
            || exists y :: y in c.preds[x] && y < c.size && s.make[y] && (s.made[y].Unmade? || Lost(s.made[y]))
    ensures s.errors == 0 && s.refused == [] ==>
            || x in s.toBeMade
            || Working(s, x)
            || exists y :: y in c.preds[x] && y < c.size && s.make[y] && s.made[y].Unmade?
  {
    ReachableInv(c, s);
    if x in s.order {
      ExaminedIsSomewhere(c, s, x);
    } else if x !in s.toBeMade {
      assert Waits(c, ProgressOf(s), x);
      var y :| y in c.preds[x] && y < c.size && s.make[y] && (s.made[y].Unmade? || Lost(s.made[y]));
    }
  }

  /** Where a ready node is that some procedure of the engine will still come to: it is queued, running
    * or held, or it waits for an unmade predecessor. */
  ghost predicate Expected(c: Config, s: State, x: Node)
    requires Shaped(c) && Sized(c, s) && x < c.size
  {
    || x in s.toBeMade || Working(s, x)
    || exists y :: y in c.preds[x] && y < c.size && s.make[y] && s.made[y].Unmade?
  }

  /** A predecessor of the node failed after the node had been put aside for it, and no other one is
    * unmade, so that nothing will queue the node again. */
  ghost predicate Stranded(c: Config, s: State, x: Node)
    requires Shaped(c) && Sized(c, s) && x < c.size
  {
    && x !in s.order && x !in s.toBeMade
    && (forall y :: y in c.preds[x] && y < c.size && s.make[y] ==> !s.made[y].Unmade?)
    && (exists y :: y in c.preds[x] && y < c.size && s.make[y] && Lost(s.made[y]))
  }

  /** Examined nodes are not in the queue and have no unmade predecessors. */
  lemma ExaminedIsPast(c: Config, s: State, x: Node)
    requires Reachable(c, s) && x in s.order
    ensures x !in s.toBeMade && x < c.size
    ensures forall y :: y in c.preds[x] && y < c.size && s.make[y] ==> !s.made[y].Unmade?
  {
    ReachableInv(c, s);
    var i :| 0 <= i < |s.order| && s.order[i] == x;
    assert Justified(c, ProgressOf(s), i);
  }

  /** What is running or held has been examined. */
  lemma WorkingIsExamined(c: Config, s: State, x: Node)
    requires Reachable(c, s) && Working(s, x)
    ensures x in s.order
  {
    ReachableInv(c, s);
    if j :| j in s.jobs && j.node == x {
      NodeOfJob(s.jobs, j);
    } else {
      var j :| j in s.held && j.node == x;
      NodeOfJob(s.held, j);
    }
    assert (Claims(TableOf(s)) + multiset{})[x] >= 1;
  }

  /** When a wake-up is lost: the engine comes to a ready and unmade node no more exactly if the node
    * was given up, or a predecessor that failed has left it stranded. */
  lemma ForgottenExactlyWhen(c: Config, s: State, x: Node)
    requires Reachable(c, s) && x < c.size && s.make[x] && s.made[x].Unmade? && s.unmade[x] == 0
    ensures !Expected(c, s, x) <==> x in s.refused || x in s.abandoned || Stranded(c, s, x)
  {
    NoLostWakeUp(c, s, x);
    if x in s.refused || x in s.abandoned {
      GivenUpIsUnsettled(c, s, x);
      ExaminedIsPast(c, s, x);
    } else if x in s.order {
      ExaminedIsSomewhere(c, s, x);
    } else if Working(s, x) {
      WorkingIsExamined(c, s, x);
    }
  }

  lemma {:induction false} JobOfNode(jobs: seq<Job>, x: Node)
    requires x in NodesOf(jobs)
    ensures exists j :: j in jobs && j.node == x
  {
    if jobs[0].node == x {
      assert jobs[0] in jobs;
    } else {
      JobOfNode(jobs[1..], x);
      var j :| j in jobs[1..] && j.node == x;
      assert j in jobs;
    }
  }

  /** No double start: whatever is taken off the queue has not been examined before. */
  lemma ExaminedOnce(c: Config, s: State)
    requires Reachable(c, s) && Enabled(s, DoExamine)
    ensures s.toBeMade[0] !in s.order
    ensures Distinct(s.order)
  {
    ReachableInv(c, s);
    assert s.toBeMade[0] in s.toBeMade;
  }

  // ------------------------------------------------------------- job table

  /** The table never holds more than maxJobs jobs, of which at most maxLocal are local, and the
    * counters agree with it; the full flag is off only if there is room. */
  lemma TableIsBounded(c: Config, s: State)
    requires Reachable(c, s)
    ensures s.nJobs == |s.jobs| <= c.maxJobs
    ensures s.nLocal == Locals(s.jobs) <= c.maxLocal
    ensures !s.jobFull ==> |s.jobs| < c.maxJobs
  {
    ReachableInv(c, s);
  }

  /** How often the node is among the running, the held, the refused and the abandoned. */
  function Places(s: State, x: Node): nat {
    NodesOf(s.jobs)[x] + NodesOf(s.held)[x] + multiset(s.refused)[x] + multiset(s.abandoned)[x]
  }

  /** Every examined node is in exactly one of: running, held, refused, abandoned, settled, failed;
    * other nodes are in none.  Refusing needs -k, and abandoning needs an abort. */
  lemma OneFate(c: Config, s: State, x: Node)
    requires Reachable(c, s) && x < c.size && s.make[x]
    ensures x in s.order ==>
      Places(s, x) == if Settled(s.made[x]) || Lost(s.made[x]) then 0 else 1
    ensures x !in s.order ==> Places(s, x) == 0 && s.made[x].Unmade?
    ensures s.abandoned != [] ==> s.aborting
    ensures s.refused != [] ==> c.keepgoing || s.mode.Dead?
  {
    ReachableInv(c, s);
    assert (Claims(TableOf(s)) + multiset{})[x] == Places(s, x);
  }

  // --------------------------------------------------------------- failure

  /** p goes down along child edges. */
  predicate Descent(c: Config, p: seq<Node>)
    requires Shaped(c)
  {
    && p != []
    && (forall i :: 0 <= i < |p| ==> p[i] < c.size)
    && (forall i :: 0 <= i < |p| - 1 ==> p[i + 1] in c.children[p[i]])
  }

  /** No ancestor of a node that has not settled, in particular of one that failed, was refused
    * or was abandoned, is ever examined. */
  lemma {:induction false} FailureIsContained(c: Config, s: State, p: seq<Node>)
    requires Reachable(c, s) && Descent(c, p) && |p| >= 2 && !Settled(s.made[p[|p| - 1]])
    ensures p[0] !in s.order && s.made[p[0]].Unmade?
    decreases |p|
  {
    ReachableInv(c, s);
    if |p| > 2 {
      assert Descent(c, p[1..]);
      FailureIsContained(c, s, p[1..]);
    }
    forall i | 0 <= i < |s.order| ensures s.order[i] != p[0] {
      assert Justified(c, ProgressOf(s), i);
      assert p[1] in c.children[p[0]];
    }
  }

  /** Refused and abandoned nodes have not settled, so FailureIsContained applies to them. */
  lemma GivenUpIsUnsettled(c: Config, s: State, x: Node)
    requires Reachable(c, s) && (x in s.refused || x in s.abandoned)
    ensures x in s.order && x < c.size && s.made[x].Unmade? && !Working(s, x)
  {
    ReachableInv(c, s);
    var claims := Claims(TableOf(s)) + multiset{};
    assert claims[x] == Places(s, x);
    assert multiset(s.refused)[x] + multiset(s.abandoned)[x] >= 1;
    forall j | j in s.jobs ensures j.node != x {
      NodeOfJob(s.jobs, j);
    }
    forall j | j in s.held ensures j.node != x {
      NodeOfJob(s.held, j);
    }
  }

  lemma {:induction false} NodeOfJob(jobs: seq<Job>, j: Job)
    requires j in jobs
    ensures NodesOf(jobs)[j.node] >= 1
  {
    if jobs[0] != j { NodeOfJob(jobs[1..], j); }
  }

  // ---------------------------------------------------------------- cycles

  /** x has to wait for y: a dependency, or .ORDER with a marked predecessor. */
  predicate Awaits(c: Config, make: seq<bool>, x: Node, y: Node)
    requires Shaped(c) && |make| == c.size
  {
    x < c.size && y < c.size && make[x] && make[y] && (y in c.children[x] || y in c.preds[x])
  }

  predicate Walk(c: Config, make: seq<bool>, p: seq<Node>)
    requires Shaped(c) && |make| == c.size
  {
    forall i :: 0 <= i < |p| - 1 ==> Awaits(c, make, p[i], p[i + 1])
  }

  ghost predicate Cyclic(c: Config, make: seq<bool>)
    requires Shaped(c) && |make| == c.size
  {
    exists p :: |p| >= 2 && Walk(c, make, p) && p[0] == p[|p| - 1]
  }

  /** What an examined node had to wait for was examined before it. */
  lemma AwaitedEarlier(c: Config, s: State, x: Node, y: Node, i: nat) returns (k: nat)
    requires Inv(c, s) && Awaits(c, s.make, x, y) && i < |s.order| && s.order[i] == x
    ensures k < i && s.order[k] == y
  {
    assert Justified(c, ProgressOf(s), i);
    assert y in s.order[..i];
    k :| 0 <= k < i && s.order[..i][k] == y;
  }

  lemma {:induction false} WalkGoesBack(c: Config, s: State, p: seq<Node>, i: nat) returns (k: nat)
    requires Inv(c, s) && p != [] && Walk(c, s.make, p) && i < |s.order| && s.order[i] == p[0]
    ensures k + |p| - 1 <= i && s.order[k] == p[|p| - 1]
    decreases |p|
  {
    if |p| == 1 {
      k := i;
    } else {
      assert Awaits(c, s.make, p[0], p[1]);
      var j := AwaitedEarlier(c, s, p[0], p[1], i);
      assert Walk(c, s.make, p[1..]) by {
        forall m | 0 <= m < |p[1..]| - 1 ensures Awaits(c, s.make, p[1..][m], p[1..][m + 1]) {
          assert Awaits(c, s.make, p[m + 1], p[m + 2]);
        }
      }
      k := WalkGoesBack(c, s, p[1..], j);
    }
  }

  /** No node on a cycle is ever examined. */
  lemma CycleIsNeverExamined(c: Config, s: State, p: seq<Node>)
    requires Inv(c, s) && |p| >= 2 && Walk(c, s.make, p) && p[0] == p[|p| - 1]
    ensures p[0] !in s.order
  {
    forall i | 0 <= i < |s.order| ensures s.order[i] != p[0] {
      if s.order[i] == p[0] {
        var k := WalkGoesBack(c, s, p, i);
        assert false;
      }
    }
  }

  lemma {:induction false} SizeOfDistinct(xs: seq<Node>, all: set<Node>)
    requires Distinct(xs) && forall x :: x in xs ==> x in all
    ensures |xs| <= |all|
    ensures |xs| == |all| ==> forall x :: x in all ==> x in xs
  {
    if xs != [] {
      var x, rest := xs[0], xs[1..];
      assert x in xs;
      forall y | y in rest ensures y in all - {x} {
        var k :| 0 <= k < |rest| && rest[k] == y;
        assert xs[k + 1] == y;
      }
      SizeOfDistinct(rest, all - {x});
      if |xs| == |all| {
        forall y | y in all ensures y in xs {
          if y != x { assert y in all - {x}; assert y in rest; }
        }
      }
    } else if |all| == 0 {
      assert all == {};
    }
  }

  /** The run is over, nothing went wrong, and nothing is left to do. */
  ghost predicate CleanEnd(c: Config, s: State) {
    Reachable(c, s) && s.mode.Finished? && s.errors == 0 && s.refused == []
  }

  lemma CleanEndFacts(c: Config, s: State)
    requires CleanEnd(c, s)
    ensures Inv(c, s) && s.jobs == s.held == [] && s.toBeMade == [] && s.abandoned == []
    ensures forall x :: x in s.order ==> x < c.size && Settled(s.made[x])
    ensures forall x :: 0 <= x < c.size && x !in s.order ==> s.made[x].Unmade?
  {
    ReachableInv(c, s);
    var claims := Claims(TableOf(s)) + multiset{};
    assert claims == multiset{};
    forall x | x in s.order ensures x < c.size && Settled(s.made[x]) {
      assert claims[x] == 0;
    }
  }

  /** At the end, a marked node that was not examined awaits another such node. */
  lemma StuckAwaitsStuck(c: Config, s: State, x: Node) returns (y: Node)
    requires CleanEnd(c, s) && x < c.size && s.make[x] && x !in s.order
    ensures Awaits(c, s.make, x, y) && y !in s.order
  {
    CleanEndFacts(c, s);
    if s.unmade[x] == 0 {
      assert Waits(c, ProgressOf(s), x);
      y :| y in c.preds[x] && y < c.size && s.make[y] && (s.made[y].Unmade? || Lost(s.made[y]));
    } else {
      assert Unsettled(s.made, c.children[x]) != 0;
      var i :| 0 <= i < |c.children[x]| && !Settled(s.made[c.children[x][i]]);
      y := c.children[x][i];
      assert y in c.children[x];
    }
  }

  lemma {:induction false} StuckWalk(c: Config, s: State, x: Node, len: nat) returns (p: seq<Node>)
    requires CleanEnd(c, s) && x < c.size && s.make[x] && x !in s.order
    ensures |p| == len + 1 && p[0] == x && Walk(c, s.make, p)
    ensures forall i :: 0 <= i < |p| ==> p[i] < c.size
    decreases len
  {
    if len == 0 {
      p := [x];
    } else {
      var y := StuckAwaitsStuck(c, s, x);
      var q := StuckWalk(c, s, y, len - 1);
      p := [x] + q;
      forall i | 0 <= i < |p| - 1 ensures Awaits(c, s.make, p[i], p[i + 1]) {
        if i > 0 { assert Awaits(c, s.make, q[i - 1], q[i]); }
      }
    }
  }

  lemma {:induction false} Pigeonhole(p: seq<Node>, n: nat) returns (i: nat, j: nat)
    requires |p| > n && forall k :: 0 <= k < |p| ==> p[k] < n
    ensures i < j < |p| && p[i] == p[j]
  {
    if Distinct(p) {
      SizeOfDistinct(p, Below(n));
      assert false;
    } else {
      i, j :| 0 <= i < j < |p| && p[i] == p[j];
    }
  }

  function Below(n: nat): (r: set<Node>)
    ensures |r| == n && forall x: Node :: x in r <==> x < n
  {
    if n == 0 then {} else Below(n - 1) + {n - 1}
  }

  lemma PartOfWalk(c: Config, make: seq<bool>, p: seq<Node>, i: nat, j: nat)
    requires Shaped(c) && |make| == c.size && i <= j <= |p| && Walk(c, make, p)
    ensures Walk(c, make, p[i..j])
  {
    var q := p[i..j];
    forall k | 0 <= k < |q| - 1 ensures Awaits(c, make, q[k], q[k + 1]) {
      assert Awaits(c, make, p[i + k], p[i + k + 1]);
    }
  }

  /** A walk that is longer than the graph goes around a cycle. */
  lemma LongWalkIsCyclic(c: Config, make: seq<bool>, p: seq<Node>)
    requires Shaped(c) && |make| == c.size && Walk(c, make, p)
    requires |p| > c.size && forall k :: 0 <= k < |p| ==> p[k] < c.size
    ensures Cyclic(c, make)
  {
    var i, j := Pigeonhole(p, c.size);
    var q := p[i..j + 1];
    PartOfWalk(c, make, p, i, j + 1);
    assert |q| >= 2 && q[0] == q[|q| - 1];
  }

  /** A marked node that is left over at the end leads into a cycle. */
  lemma StuckMeansCycle(c: Config, s: State, x: Node)
    requires CleanEnd(c, s) && x < c.size && s.make[x] && x !in s.order
    ensures Cyclic(c, s.make)
  {
    var p := StuckWalk(c, s, x, c.size);
    LongWalkIsCyclic(c, s.make, p);
  }

  /** A cycle leaves a marked node over. */
  lemma CycleMeansStuck(c: Config, s: State)
    requires Inv(c, s) && Cyclic(c, s.make)
    ensures exists x :: x in Marked(s.make) && x !in s.order
  {
    var p :| |p| >= 2 && Walk(c, s.make, p) && p[0] == p[|p| - 1];
    assert Awaits(c, s.make, p[0], p[1]);
    CycleIsNeverExamined(c, s, p);
    assert p[0] in Marked(s.make) && p[0] !in s.order;
  }

  /** The count of unexamined nodes that Make_Run is left with is non-zero exactly if the marked
    * part of the graph has a cycle of dependency and .ORDER edges; if it is zero, every marked
    * node is made or up to date. */
  lemma CycleTheorem(c: Config, s: State)
    requires CleanEnd(c, s)
    ensures s.numNodes != 0 <==> Cyclic(c, s.make)
    ensures s.numNodes == 0 ==> forall x :: 0 <= x < c.size && s.make[x] ==> Settled(s.made[x])
  {
    CleanEndFacts(c, s);
    SizeOfDistinct(s.order, Marked(s.make));
    if s.numNodes != 0 {
      if forall x :: x in Marked(s.make) ==> x in s.order {
        AllExamined(s.order, Marked(s.make));
      }
      var x :| x in Marked(s.make) && x !in s.order;
      StuckMeansCycle(c, s, x);
    } else {
      if Cyclic(c, s.make) { CycleMeansStuck(c, s); }
      forall x | 0 <= x < c.size && s.make[x] ensures Settled(s.made[x]) {
        assert x in Marked(s.make);
      }
    }
  }

  lemma {:induction false} AllExamined(xs: seq<Node>, all: set<Node>)
    requires Distinct(xs) && (forall x :: x in xs ==> x in all) && (forall x :: x in all ==> x in xs)
    ensures |xs| == |all|
  {
    if xs != [] {
      var x, rest := xs[0], xs[1..];
      assert x in xs;
      forall y | y in rest ensures y in all - {x} {
        var k :| 0 <= k < |rest| && rest[k] == y;
        assert xs[k + 1] == y;
      }
      AllExamined(rest, all - {x});
    } else {
      assert all == {};
    }
  }
}
