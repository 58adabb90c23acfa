/** What holds in every reachable state of the parallel engine. */
module Protocol {
  import opened Graph
  import opened Scheduler

  /** The node has been through Make_Update. */
  predicate Settled(m: Made) { m.Remade? || m.UpToDate? }

  predicate Lost(m: Made) { m.Failed? || m.Aborted? }

  predicate Distinct<T(==)>(xs: seq<T>) {
    forall i, j :: 0 <= i < j < |xs| ==> xs[i] != xs[j]
  }

  /** The number of edges in xs whose end has not settled. */
  function Unsettled(made: seq<Made>, xs: seq<Node>): (k: nat)
    requires Within(xs, |made|)
    ensures k == 0 <==> forall i :: 0 <= i < |xs| ==> Settled(made[xs[i]])
  {
    if xs == [] then 0
    else
      assert Within(xs[1..], |made|);
      assert forall i :: 1 <= i < |xs| ==> xs[i] == xs[1..][i - 1];
      (if Settled(made[xs[0]]) then 0 else 1) + Unsettled(made, xs[1..])
  }

  /** The part of the state that the readiness protocol is about. */
  datatype Progress = Progress(
    make: seq<bool>,
    made: seq<Made>,
    unmade: seq<int>,
    toBeMade: seq<Node>,
    order: seq<Node>,
    numNodes: int)

  function ProgressOf(s: State): Progress {
    Progress(s.make, s.made, s.unmade, s.toBeMade, s.order, s.numNodes)
  }

  predicate Fits(c: Config, p: Progress) {
    |p.make| == |p.made| == |p.unmade| == c.size && Within(p.toBeMade, c.size)
  }

  function Marked(make: seq<bool>): set<Node> {
    set x | 0 <= x < |make| && make[x]
  }

  // ------------------------------------------------------- the invariants

  /** The queue holds nodes that are ready and have not been examined yet. */
  ghost predicate QueueOk(c: Config, p: Progress)
    requires Fits(c, p)
  {
    && Distinct(p.toBeMade)
    && forall x :: x in p.toBeMade ==>
         p.make[x] && p.made[x].Unmade? && p.unmade[x] == 0 && x !in p.order
  }

  /** When the i-th node was examined, its children had settled and its marked
    * predecessors had been dealt with. */
  ghost predicate Justified(c: Config, p: Progress, i: nat)
    requires Shaped(c) && Fits(c, p) && i < |p.order|
  {
    p.order[i] < c.size &&
    var x := p.order[i];
    && (forall y :: y in c.children[x] ==> y < c.size && Settled(p.made[y]) && y in p.order[..i])
    && (forall y :: y in c.preds[x] && y < c.size && p.make[y] ==>
          !p.made[y].Unmade? && y in p.order[..i])
  }

  /** The history of examined nodes: none twice, all marked, and after the edges they wait for. */
  ghost predicate OrderOk(c: Config, p: Progress)
    requires Shaped(c) && Fits(c, p)
  {
    && Distinct(p.order)
    && (forall x :: x in p.order ==> x < c.size && p.make[x])
    && (forall x :: 0 <= x < c.size && !p.made[x].Unmade? ==> x in p.order)
    && (forall i :: 0 <= i < |p.order| ==> Justified(c, p, i))
    && p.numNodes + |p.order| == |Marked(p.make)|
  }

  /** The counter of a marked node is the number of its child edges still open. */
  ghost predicate CounterOk(c: Config, p: Progress)
    requires Shaped(c) && Fits(c, p)
  {
    forall x :: 0 <= x < c.size && p.make[x] ==> p.unmade[x] == Unsettled(p.made, c.children[x])
  }

  /** A node that is ready but not queued waits for a predecessor, or has lost one. */
  ghost predicate Waits(c: Config, p: Progress, x: Node)
    requires Shaped(c) && Fits(c, p) && x < c.size
  {
    exists y :: y in c.preds[x] && y < c.size && p.make[y] && (p.made[y].Unmade? || Lost(p.made[y]))
  }

  ghost predicate WakeOk(c: Config, p: Progress)
    requires Shaped(c) && Fits(c, p)
  {
    forall x :: 0 <= x < c.size && p.make[x] && p.unmade[x] == 0 && x !in p.order ==>
      x in p.toBeMade || Waits(c, p, x)
  }

  /** Marking is closed under going to children. */
  ghost predicate MarkOk(c: Config, make: seq<bool>)
    requires Shaped(c) && |make| == c.size
  {
    forall x, y :: 0 <= x < c.size && make[x] && y in c.children[x] ==> y < c.size && make[y]
  }

  ghost predicate Core(c: Config, p: Progress) {
    && WellFormed(c) && Fits(c, p)
    && QueueOk(c, p) && OrderOk(c, p) && CounterOk(c, p) && WakeOk(c, p) && MarkOk(c, p.make)
  }

  // ---------------------------------------------------- Make_Update, exactly

  lemma OneParentFrame(c: Config, s: State, n: Node, p: Node)
    requires Shaped(c) && Sized(c, s) && n < c.size && p < c.size
    ensures var r := UpdateParent(c, s, n, p);
      r == s.(unmade := r.unmade, childMade := r.childMade, cmtime := r.cmtime, toBeMade := r.toBeMade)
  {
  }

  lemma {:induction false} ParentsFrame(c: Config, s: State, n: Node, ps: seq<Node>)
    requires Shaped(c) && Sized(c, s) && n < c.size && Within(ps, c.size)
    ensures var r := UpdateParents(c, s, n, ps);
      r == s.(unmade := r.unmade, childMade := r.childMade, cmtime := r.cmtime, toBeMade := r.toBeMade)
    decreases |ps|
  {
    if ps != [] {
      assert Within(ps[1..], c.size);
      OneParentFrame(c, s, n, ps[0]);
      ParentsFrame(c, UpdateParent(c, s, n, ps[0]), n, ps[1..]);
    }
  }

  lemma OneParentCounts(c: Config, s: State, n: Node, p: Node)
    requires Shaped(c) && Sized(c, s) && n < c.size && p < c.size
    ensures var r := UpdateParent(c, s, n, p);
      r.make == s.make && r.unmade == if s.make[p] then s.unmade[p := s.unmade[p] - 1] else s.unmade
  {
  }

  /** The parent loop lowers every marked parent's counter by the number of edges. */
  lemma {:induction false} ParentsCount(c: Config, s: State, n: Node, ps: seq<Node>)
    requires Shaped(c) && Sized(c, s) && n < c.size && Within(ps, c.size)
    ensures var r := UpdateParents(c, s, n, ps);
      forall p :: 0 <= p < c.size ==>
        r.unmade[p] == s.unmade[p] - (if s.make[p] then Count(ps, p) else 0)
    decreases |ps|
  {
    if ps != [] {
      assert Within(ps[1..], c.size);
      var s1 := UpdateParent(c, s, n, ps[0]);
      OneParentCounts(c, s, n, ps[0]);
      ParentsCount(c, s1, n, ps[1..]);
    }
  }

  /** The queue after the parent loop, from the counters alone. */
  function Queued(make: seq<bool>, unmade: seq<int>, q: seq<Node>, ps: seq<Node>): seq<Node>
    requires |make| == |unmade| && Within(ps, |make|)
    decreases |ps|
  {
    if ps == [] then q
    else
      var p := ps[0];
      assert Within(ps[1..], |make|);
      if !make[p] then Queued(make, unmade, q, ps[1..])
      else
        Queued(make, unmade[p := unmade[p] - 1], if unmade[p] == 1 then q + [p] else q, ps[1..])
  }

  lemma {:induction false} QueueOfParents(c: Config, s: State, n: Node, ps: seq<Node>)
    requires Shaped(c) && Sized(c, s) && n < c.size && Within(ps, c.size)
    ensures UpdateParents(c, s, n, ps).toBeMade == Queued(s.make, s.unmade, s.toBeMade, ps)
    decreases |ps|
  {
    if ps != [] {
      assert Within(ps[1..], c.size);
      QueueOfParents(c, UpdateParent(c, s, n, ps[0]), n, ps[1..]);
    }
  }

  /** The parent loop queues the parents whose counter reaches zero, once each. */
  lemma {:induction false} QueuedOnce(make: seq<bool>, unmade: seq<int>, q: seq<Node>, ps: seq<Node>)
    requires |make| == |unmade| && Within(ps, |make|) && Distinct(q)
    requires forall p :: p in ps && make[p] ==> unmade[p] >= Count(ps, p) && p !in q
    ensures var r := Queued(make, unmade, q, ps);
      && Distinct(r)
      && (forall x :: x in r <==> x in q || (x in ps && make[x] && unmade[x] == Count(ps, x)))
    decreases |ps|
  {
    if ps != [] {
      var p, rest := ps[0], ps[1..];
      assert Within(rest, |make|) && p in ps;
      assert forall x :: x in ps <==> x == p || x in rest;
      if make[p] {
        QueuedOnce(make, unmade[p := unmade[p] - 1], if unmade[p] == 1 then q + [p] else q, rest);
      } else {
        QueuedOnce(make, unmade, q, rest);
      }
    }
  }

  lemma {:induction false} WakeEffect(c: Config, s: State, succs: seq<Node>)
    requires Shaped(c) && Sized(c, s) && Within(succs, c.size)
    requires Distinct(s.toBeMade)
    ensures var r := WakeSuccessors(c, s, succs);
      && r == s.(toBeMade := r.toBeMade)
      && Distinct(r.toBeMade)
      && (forall x :: x in r.toBeMade <==>
            x in s.toBeMade || (x in succs && s.make[x] && s.unmade[x] == 0 && s.made[x].Unmade?))
    decreases |succs|
  {
    if succs != [] {
      assert Within(succs[1..], c.size);
      WakeEffect(c, WakeSuccessor(c, s, succs[0]), succs[1..]);
    }
  }

  lemma {:induction false} UnsettledDrops(made: seq<Made>, xs: seq<Node>, n: Node, m: Made)
    requires Within(xs, |made|) && n < |made| && !Settled(made[n]) && Settled(m)
    ensures Unsettled(made[n := m], xs) == Unsettled(made, xs) - Count(xs, n)
  {
    if xs != [] {
      assert Within(xs[1..], |made|);
      UnsettledDrops(made, xs[1..], n, m);
    }
  }

  lemma {:induction false} UnsettledSame(made: seq<Made>, xs: seq<Node>, n: Node, m: Made)
    requires Within(xs, |made|) && n < |made| && !Settled(made[n]) && !Settled(m)
    ensures Unsettled(made[n := m], xs) == Unsettled(made, xs)
  {
    if xs != [] {
      assert Within(xs[1..], |made|);
      UnsettledSame(made, xs[1..], n, m);
    }
  }

  // -------------------------------------------- the protocol's atomic moves

  /** r is p after n has settled as m: the parents' counters dropped, and exactly those parents
    * and successors are queued besides that have become ready. */
  ghost predicate SettleStep(c: Config, p: Progress, n: Node, m: Made, r: Progress)
    requires Shaped(c) && Fits(c, p) && n < c.size
  {
    && Fits(c, r) && r.make == p.make && r.made == p.made[n := m] && Settled(m)
    && r.order == p.order && r.numNodes == p.numNodes
    && Distinct(r.toBeMade)
    && CounterOk(c, r)
    && (forall x :: x in r.toBeMade <==>
          || x in p.toBeMade
          || (x in c.parents[n] && p.make[x] && r.unmade[x] == 0)
          || (x in c.successors[n] && p.make[x] && r.unmade[x] == 0 && r.made[x].Unmade?))
  }

  /** Make_Update makes that step. */
  lemma SettleEffect(c: Config, s: State, n: Node, s1: State)
    requires Core(c, ProgressOf(s)) && Sized(c, s) && n in s.order && s.made[n].Unmade? && Sized(c, s1)
    requires Settled(s1.made[n]) && ProgressOf(s1) == ProgressOf(s).(made := s.made[n := s1.made[n]])
    ensures var r := MakeUpdate(c, s1, n);
      && r == s1.(unmade := r.unmade, childMade := r.childMade, cmtime := r.cmtime,
                  mtime := r.mtime, toBeMade := r.toBeMade)
      && SettleStep(c, ProgressOf(s), n, s1.made[n], ProgressOf(r))
  {
    assert s1.make == s.make && s1.unmade == s.unmade && s1.toBeMade == s.toBeMade;
    var s2 := Recheck(c, s1, n);
    var ps := c.parents[n];
    forall p | 0 <= p < c.size && s.make[p]
      ensures s.unmade[p] == Unsettled(s1.made, c.children[p]) + Count(ps, p)
    {
      UnsettledDrops(s.made, c.children[p], n, s1.made[n]);
    }
    forall p | p in ps && s2.make[p]
      ensures s2.unmade[p] >= Count(ps, p) && p !in s2.toBeMade
    {
    }
    ParentsFrame(c, s2, n, ps);
    ParentsCount(c, s2, n, ps);
    QueueOfParents(c, s2, n, ps);
    QueuedOnce(s2.make, s2.unmade, s2.toBeMade, ps);
    WakeEffect(c, UpdateParents(c, s2, n, ps), c.successors[n]);
  }

  /** An unsettled node is not a child, nor an open predecessor, of an examined one. */
  lemma OpenNodeBlocks(c: Config, p: Progress, n: Node, x: Node)
    requires Core(c, p) && n in p.order && p.made[n].Unmade? && x < c.size
    requires n in c.children[x] || n in c.preds[x]
    ensures x !in p.order && p.made[x].Unmade?
  {
    forall i | 0 <= i < |p.order| ensures p.order[i] != x {
      assert Justified(c, p, i);
    }
  }

  /** The history stays justified when nodes only leave the state Unmade. */
  lemma HistoryKept(c: Config, p: Progress, r: Progress)
    requires Shaped(c) && Fits(c, p) && Fits(c, r) && OrderOk(c, p)
    requires r.make == p.make && r.order == p.order && r.numNodes == p.numNodes
    requires forall x :: 0 <= x < c.size && r.made[x] != p.made[x] ==>
      x in p.order && p.made[x].Unmade? && !r.made[x].Unmade?
    ensures OrderOk(c, r)
  {
    forall i | 0 <= i < |r.order| ensures Justified(c, r, i) {
      assert Justified(c, p, i);
    }
  }

  lemma SettleKeepsQueue(c: Config, p: Progress, n: Node, m: Made, r: Progress)
    requires Core(c, p) && n in p.order && n < c.size && p.made[n].Unmade? && SettleStep(c, p, n, m, r)
    ensures QueueOk(c, r)
  {
    forall x | x in r.toBeMade
      ensures r.make[x] && r.made[x].Unmade? && r.unmade[x] == 0 && x !in r.order
    {
      assert Count(c.children[x], n) == Count(c.parents[n], x);
      if x in p.toBeMade {
        UnsettledDrops(p.made, c.children[x], n, m);
      } else {
        OpenNodeBlocks(c, p, n, x);
      }
    }
  }

  lemma SettleKeepsWake(c: Config, p: Progress, n: Node, m: Made, r: Progress)
    requires Core(c, p) && n in p.order && n < c.size && p.made[n].Unmade? && SettleStep(c, p, n, m, r)
    ensures WakeOk(c, r)
  {
    forall x | 0 <= x < c.size && r.make[x] && r.unmade[x] == 0 && x !in r.order
      ensures x in r.toBeMade || Waits(c, r, x)
    {
      SettleKeepsWakeOf(c, p, n, m, r, x);
    }
  }

  lemma SettleKeepsWakeOf(c: Config, p: Progress, n: Node, m: Made, r: Progress, x: Node)
    requires Core(c, p) && n in p.order && n < c.size && p.made[n].Unmade? && SettleStep(c, p, n, m, r)
    requires x < c.size && r.make[x] && r.unmade[x] == 0 && x !in r.order
    ensures x in r.toBeMade || Waits(c, r, x)
  {
    UnsettledDrops(p.made, c.children[x], n, m);
    assert Count(c.children[x], n) == Count(c.parents[n], x);
    if p.unmade[x] == 0 && x !in p.toBeMade {
      assert Waits(c, p, x);
      var y :| y in c.preds[x] && y < c.size && p.make[y] && (p.made[y].Unmade? || Lost(p.made[y]));
      if y == n { assert x in c.successors[n] && r.made[x].Unmade?; }
    }
  }

  lemma SettleKeepsCore(c: Config, p: Progress, n: Node, m: Made, r: Progress)
    requires Core(c, p) && n in p.order && n < c.size && p.made[n].Unmade? && SettleStep(c, p, n, m, r)
    ensures Core(c, r)
  {
    SettleKeepsQueue(c, p, n, m, r);
    SettleKeepsWake(c, p, n, m, r);
    HistoryKept(c, p, r);
  }

  lemma FailKeepsCore(c: Config, p: Progress, n: Node, m: Made)
    requires Core(c, p) && n in p.order && n < c.size && p.made[n].Unmade? && Lost(m)
    ensures Core(c, p.(made := p.made[n := m]))
  {
    var r := p.(made := p.made[n := m]);
    forall x | 0 <= x < c.size && r.make[x]
      ensures r.unmade[x] == Unsettled(r.made, c.children[x])
    {
      UnsettledSame(p.made, c.children[x], n, m);
    }
    HistoryKept(c, p, r);
    forall x | 0 <= x < c.size && r.make[x] && r.unmade[x] == 0 && x !in r.order
      ensures x in r.toBeMade || Waits(c, r, x)
    {
      if x !in p.toBeMade {
        var y :| y in c.preds[x] && y < c.size && p.make[y] && (p.made[y].Unmade? || Lost(p.made[y]));
        assert r.made[y].Unmade? || Lost(r.made[y]);
      }
    }
  }

  lemma TailOfQueue(q: seq<Node>)
    requires q != [] && Distinct(q)
    ensures Distinct(q[1..]) && forall x :: x in q[1..] <==> x in q && x != q[0]
  {
    forall x | x in q && x != q[0] ensures x in q[1..] {
      var k :| 0 <= k < |q| && q[k] == x;
      assert q[1..][k - 1] == x;
    }
  }

  /** Is the node held back by a predecessor that is not made yet? */
  predicate HeldBack(c: Config, p: Progress, n: Node)
    requires Shaped(c) && Fits(c, p) && n < c.size
  {
    exists i :: 0 <= i < |c.preds[n]| && p.make[c.preds[n][i]] && p.made[c.preds[n][i]].Unmade?
  }

  /** The head of the queue leaves it without being examined. */
  lemma DropKeepsCore(c: Config, p: Progress)
    requires Core(c, p) && p.toBeMade != [] && HeldBack(c, p, p.toBeMade[0])
    ensures Core(c, p.(toBeMade := p.toBeMade[1..]))
  {
    var n, r := p.toBeMade[0], p.(toBeMade := p.toBeMade[1..]);
    TailOfQueue(p.toBeMade);
    HistoryKept(c, p, r);
    var i :| 0 <= i < |c.preds[n]| && p.make[c.preds[n][i]] && p.made[c.preds[n][i]].Unmade?;
    assert c.preds[n][i] in c.preds[n];
    forall x | 0 <= x < c.size && r.make[x] && r.unmade[x] == 0 && x !in r.order
      ensures x in r.toBeMade || Waits(c, r, x)
    {
      if x !in p.toBeMade { assert Waits(c, p, x); }
    }
  }

  /** p after its head of the queue has passed the predecessor check. */
  function Begun(p: Progress): Progress
    requires p.toBeMade != []
  {
    p.(toBeMade := p.toBeMade[1..], numNodes := p.numNodes - 1, order := p.order + [p.toBeMade[0]])
  }

  lemma BeginKeepsOrder(c: Config, p: Progress)
    requires Core(c, p) && p.toBeMade != [] && !HeldBack(c, p, p.toBeMade[0])
    ensures Fits(c, Begun(p)) && OrderOk(c, Begun(p))
  {
    var n, r := p.toBeMade[0], Begun(p);
    assert n in p.toBeMade;
    forall i | 0 <= i < |r.order| ensures Justified(c, r, i) {
      if i < |p.order| {
        assert Justified(c, p, i);
        assert r.order[..i] == p.order[..i];
      } else {
        assert r.order[..i] == p.order;
        forall y | y in c.children[n] ensures y < c.size && Settled(p.made[y]) && y in p.order {
          var k :| 0 <= k < |c.children[n]| && c.children[n][k] == y;
        }
        forall y | y in c.preds[n] && y < c.size && p.make[y] ensures !p.made[y].Unmade? && y in p.order {
          var k :| 0 <= k < |c.preds[n]| && c.preds[n][k] == y;
        }
      }
    }
  }

  /** The head of the queue passes the predecessor check. */
  lemma BeginKeepsCore(c: Config, p: Progress)
    requires Core(c, p) && p.toBeMade != [] && !HeldBack(c, p, p.toBeMade[0])
    ensures var n := p.toBeMade[0];
      n !in p.order && p.made[n].Unmade? && p.make[n] && Core(c, Begun(p))
  {
    var n, r := p.toBeMade[0], Begun(p);
    assert n in p.toBeMade;
    TailOfQueue(p.toBeMade);
    BeginKeepsOrder(c, p);
    forall x | 0 <= x < c.size && r.make[x] && r.unmade[x] == 0 && x !in r.order
      ensures x in r.toBeMade || Waits(c, r, x)
    {
      if x !in p.toBeMade { assert Waits(c, p, x); }
    }
  }
}
