/** Time stamps: what the scheduler knows about a node's children when it judges the node. */
module Times {
  import opened Graph
  import opened Scheduler
  import opened Protocol
  import opened JobTable

  // ------------------------------------------------- the local equations

  /** The time that a settled child reports to its parents. */
  function Report(a: Attr, made: Made, mtime: int): int {
    if !Settled(made) || (made.Remade? && a.exec) then 0 else mtime
  }

  /** The time of the youngest of the settled nodes in kids, or 0. */
  function Newest(c: Config, made: seq<Made>, mtime: seq<int>, kids: seq<Node>): int
    requires Shaped(c) && |made| == |mtime| == c.size && Within(kids, c.size)
  {
    if kids == [] then 0
    else
      assert Within(kids[1..], c.size);
      Max(Newest(c, made, mtime, kids[1..]), Report(c.attr[kids[0]], made[kids[0]], mtime[kids[0]]))
  }

  predicate AnyRemade(c: Config, made: seq<Made>, kids: seq<Node>)
    requires Shaped(c) && |made| == c.size && Within(kids, c.size)
  {
    exists i :: 0 <= i < |kids| && made[kids[i]].Remade? && !c.attr[kids[i]].exec
  }

  /** The time of the node's file as Make_OODate sees it. */
  function Looked(c: Config, ft0: seq<int>, n: Node): int
    requires Shaped(c) && |ft0| == c.size && n < c.size
  {
    if c.attr[n].join || c.attr[n].exec then 0 else ft0[n]
  }

  /** Is the node out of date, given how its children came out? */
  predicate Stale(c: Config, ft0: seq<int>, made: seq<Made>, mtime: seq<int>, n: Node)
    requires Shaped(c) && |made| == |mtime| == |ft0| == c.size && n < c.size
  {
    OutOfDate(c.attr[n], AnyRemade(c, made, c.children[n]), Looked(c, ft0, n),
              Newest(c, made, mtime, c.children[n]))
  }

  /** The time of a node that was remade. */
  function Rechecked(c: Config, t: int): int {
    if t == 0 then c.now else t
  }

  // --------------------------------------------------------- the invariant

  /** Every marked node has collected the reports of its settled children. */
  ghost predicate Collected(c: Config, s: State)
    requires Shaped(c) && Sized(c, s)
  {
    forall p: Node :: p < c.size && s.make[p] ==>
      && s.cmtime[p] == Newest(c, s.made, s.mtime, c.children[p])
      && (s.childMade[p] <==> AnyRemade(c, s.made, c.children[p]))
  }

  /** Every examined node was judged by how all of its children came out. */
  ghost predicate EachJudged(c: Config, ft0: seq<int>, s: State)
    requires Shaped(c) && Sized(c, s) && |ft0| == c.size
  {
    forall n :: n in s.order && n < c.size ==>
      (s.made[n].UpToDate? <==> !Stale(c, ft0, s.made, s.mtime, n))
  }

  ghost predicate Timed(c: Config, ft0: seq<int>, s: State)
    requires Shaped(c) && Sized(c, s) && |ft0| == c.size
  {
    forall n: Node :: n < c.size ==>
      && (s.made[n].UpToDate? ==> s.mtime[n] == Looked(c, ft0, n))
      && (s.made[n].Remade? ==> s.mtime[n] == Rechecked(c, s.ftime[n]))
      && (n !in s.order ==> s.mtime[n] == 0 && s.ftime[n] == ft0[n])
  }

  ghost predicate TimesOk(c: Config, ft0: seq<int>, s: State) {
    && Shaped(c) && Sized(c, s) && |ft0| == c.size
    && Collected(c, s) && EachJudged(c, ft0, s) && Timed(c, ft0, s)
  }

  /** The node is not a child of an examined one. */
  ghost predicate Awaited(c: Config, order: seq<Node>, n: Node)
    requires Shaped(c)
  {
    forall x :: x in order && x < c.size ==> n !in c.children[x]
  }

  lemma IsAwaited(c: Config, p: Progress, n: Node)
    requires Core(c, p) && n in p.order && p.made[n].Unmade?
    ensures Awaited(c, p.order, n)
  {
    forall x | x in p.order && x < c.size ensures n !in c.children[x] {
      if n in c.children[x] { OpenNodeBlocks(c, p, n, x); }
    }
  }

  // ------------------------------------------------ how the reports change

  lemma {:induction false} NewestSame(c: Config, made: seq<Made>, mtime: seq<int>, made': seq<Made>, mtime': seq<int>, kids: seq<Node>)
    requires Shaped(c) && |made| == |mtime| == |made'| == |mtime'| == c.size && Within(kids, c.size)
    requires forall i :: 0 <= i < |kids| ==>
      Report(c.attr[kids[i]], made[kids[i]], mtime[kids[i]]) == Report(c.attr[kids[i]], made'[kids[i]], mtime'[kids[i]])
    ensures Newest(c, made, mtime, kids) == Newest(c, made', mtime', kids)
  {
    if kids != [] {
      assert Within(kids[1..], c.size);
      NewestSame(c, made, mtime, made', mtime', kids[1..]);
    }
  }

  lemma {:induction false} NewestSettles(c: Config, made: seq<Made>, mtime: seq<int>, n: Node, m: Made, t: int, kids: seq<Node>)
    requires Shaped(c) && |made| == |mtime| == c.size && Within(kids, c.size)
    requires n < c.size && !Settled(made[n])
    ensures Newest(c, made, mtime, kids) >= 0
    ensures Newest(c, made[n := m], mtime[n := t], kids) ==
      if n in kids then Max(Newest(c, made, mtime, kids), Report(c.attr[n], m, t))
      else Newest(c, made, mtime, kids)
  {
    if kids != [] {
      assert Within(kids[1..], c.size);
      NewestSettles(c, made, mtime, n, m, t, kids[1..]);
    }
  }

  lemma {:induction false} NewestCovers(c: Config, made: seq<Made>, mtime: seq<int>, kids: seq<Node>, y: Node)
    requires Shaped(c) && |made| == |mtime| == c.size && Within(kids, c.size) && y in kids
    ensures Newest(c, made, mtime, kids) >= Report(c.attr[y], made[y], mtime[y])
  {
    assert Within(kids[1..], c.size);
    if y != kids[0] { NewestCovers(c, made, mtime, kids[1..], y); }
  }

  lemma AnySettles(c: Config, made: seq<Made>, n: Node, m: Made, kids: seq<Node>)
    requires Shaped(c) && |made| == c.size && Within(kids, c.size)
    requires n < c.size && !Settled(made[n])
    ensures AnyRemade(c, made[n := m], kids) <==>
      AnyRemade(c, made, kids) || (n in kids && m.Remade? && !c.attr[n].exec)
  {
    var made' := made[n := m];
    if AnyRemade(c, made, kids) {
      var i :| 0 <= i < |kids| && made[kids[i]].Remade? && !c.attr[kids[i]].exec;
      assert made'[kids[i]].Remade?;
    }
    if n in kids && m.Remade? && !c.attr[n].exec {
      var i :| 0 <= i < |kids| && kids[i] == n;
      assert made'[kids[i]].Remade?;
    }
  }

  lemma {:induction false} StampAllEffect(cmtime: seq<int>, t: int, ps: seq<Node>, p: Node)
    requires Within(ps, |cmtime|) && p < |cmtime|
    ensures StampAll(cmtime, t, ps)[p] == if p in ps then Max(cmtime[p], t) else cmtime[p]
    decreases |ps|
  {
    if ps != [] {
      assert Within(ps[1..], |cmtime|);
      StampAllEffect(cmtime[ps[0] := Max(cmtime[ps[0]], t)], t, ps[1..], p);
    }
  }

  lemma {:induction false} ParentsStamped(c: Config, s: State, n: Node, ps: seq<Node>, p: Node)
    requires Shaped(c) && Sized(c, s) && n < c.size && Within(ps, c.size) && p < c.size
    ensures UpdateParents(c, s, n, ps).cmtime[p] ==
      if s.make[p] && p in ps && !c.attr[n].exec then Max(s.cmtime[p], s.mtime[n]) else s.cmtime[p]
    decreases |ps|
  {
    if ps != [] {
      var s1 := UpdateParent(c, s, n, ps[0]);
      assert Within(ps[1..], c.size);
      ParentsStamped(c, s1, n, ps[1..], p);
      assert s1.make == s.make && s1.mtime == s.mtime;
      assert p in ps <==> p == ps[0] || p in ps[1..];
    }
  }

  lemma {:induction false} ParentsTold(c: Config, s: State, n: Node, ps: seq<Node>, p: Node)
    requires Shaped(c) && Sized(c, s) && n < c.size && Within(ps, c.size) && p < c.size
    ensures UpdateParents(c, s, n, ps).childMade[p] <==>
      s.childMade[p] || (s.make[p] && p in ps && !c.attr[n].exec && s.made[n].Remade?)
    decreases |ps|
  {
    if ps != [] {
      var s1 := UpdateParent(c, s, n, ps[0]);
      assert Within(ps[1..], c.size);
      ParentsTold(c, s1, n, ps[1..], p);
      assert s1.make == s.make && s1.made == s.made;
      assert p in ps <==> p == ps[0] || p in ps[1..];
    }
  }

  /** Make_Update delivers the report of n to every marked parent. */
  lemma UpdateTimes(c: Config, s: State, n: Node, p: Node)
    requires WellFormed(c) && Sized(c, s) && n < c.size && p < c.size && s.make[p]
    ensures var r := MakeUpdate(c, s, n);
      var told := n in c.children[p] && !c.attr[n].exec;
      && r.cmtime[p] == (if told then Max(s.cmtime[p], r.mtime[n]) else s.cmtime[p])
      && (r.childMade[p] <==> s.childMade[p] || (told && s.made[n].Remade?))
  {
    var s1 := Recheck(c, s, n);
    assert Count(c.children[p], n) == Count(c.parents[n], p);
    ParentsStamped(c, s1, n, c.parents[n], p);
    ParentsTold(c, s1, n, c.parents[n], p);
    ParentsFrame(c, s1, n, c.parents[n]);
    WakeFrame(c, UpdateParents(c, s1, n, c.parents[n]), c.successors[n]);
  }

  // ------------------------------------------------- it is kept by settling

  lemma RemadeCollected(c: Config, s: State, n: Node)
    requires WellFormed(c) && Sized(c, s) && Collected(c, s) && n < c.size && !Settled(s.made[n])
    ensures Collected(c, MakeUpdate(c, s.(made := s.made[n := Remade]), n))
  {
    var s1 := s.(made := s.made[n := Remade]);
    var r := MakeUpdate(c, s1, n);
    UpdateFrame(c, s1, n);
    var t := r.mtime[n];
    assert r.mtime == s.mtime[n := t] by {
      ParentsFrame(c, Recheck(c, s1, n), n, c.parents[n]);
      WakeFrame(c, UpdateParents(c, Recheck(c, s1, n), n, c.parents[n]), c.successors[n]);
    }
    forall p: Node | p < c.size && r.make[p]
      ensures r.cmtime[p] == Newest(c, r.made, r.mtime, c.children[p])
      ensures r.childMade[p] <==> AnyRemade(c, r.made, c.children[p])
    {
      UpdateTimes(c, s1, n, p);
      NewestSettles(c, s.made, s.mtime, n, Remade, t, c.children[p]);
      AnySettles(c, s.made, n, Remade, c.children[p]);
    }
  }

  lemma UpToDateCollected(c: Config, s: State, n: Node)
    requires WellFormed(c) && Sized(c, s) && Collected(c, s) && n < c.size && !Settled(s.made[n])
    ensures Collected(c, MakeUpdate(c, PassOver(c, s, n), n))
  {
    var s1 := PassOver(c, s, n);
    var r := MakeUpdate(c, s1, n);
    UpdateFrame(c, s1, n);
    var t := s.mtime[n];
    assert r.mtime == s.mtime by {
      ParentsFrame(c, Recheck(c, s1, n), n, c.parents[n]);
      WakeFrame(c, UpdateParents(c, Recheck(c, s1, n), n, c.parents[n]), c.successors[n]);
    }
    assert s.mtime[n := t] == s.mtime;
    forall p: Node | p < c.size && r.make[p]
      ensures r.cmtime[p] == Newest(c, r.made, r.mtime, c.children[p])
      ensures r.childMade[p] <==> AnyRemade(c, r.made, c.children[p])
    {
      UpdateTimes(c, s1, n, p);
      StampAllEffect(s.cmtime, t, c.parents[n], p);
      assert Count(c.children[p], n) == Count(c.parents[n], p);
      NewestSettles(c, s.made, s.mtime, n, UpToDate, t, c.children[p]);
      AnySettles(c, s.made, n, UpToDate, c.children[p]);
    }
  }

  /** A node that nobody examined depends on may change its state and time. */
  lemma StaleSame(c: Config, ft0: seq<int>, s: State, n: Node, m: Made, t: int, x: Node)
    requires Shaped(c) && Sized(c, s) && |ft0| == c.size && n < c.size && x < c.size
    requires !Settled(s.made[n]) && n !in c.children[x]
    ensures Stale(c, ft0, s.made[n := m], s.mtime[n := t], x) == Stale(c, ft0, s.made, s.mtime, x)
  {
    NewestSettles(c, s.made, s.mtime, n, m, t, c.children[x]);
    AnySettles(c, s.made, n, m, c.children[x]);
  }

  lemma RemadeKeepsTimes(c: Config, ft0: seq<int>, s: State, n: Node)
    requires WellFormed(c) && TimesOk(c, ft0, s) && n < c.size && s.made[n].Unmade?
    requires n in s.order && Awaited(c, s.order, n)
    ensures TimesOk(c, ft0, MakeUpdate(c, s.(made := s.made[n := Remade]), n))
  {
    var s1 := s.(made := s.made[n := Remade]);
    var r := MakeUpdate(c, s1, n);
    RemadeCollected(c, s, n);
    UpdateFrame(c, s1, n);
    var t := Rechecked(c, s.ftime[n]);
    assert r.mtime == s.mtime[n := t] by {
      ParentsFrame(c, Recheck(c, s1, n), n, c.parents[n]);
      WakeFrame(c, UpdateParents(c, Recheck(c, s1, n), n, c.parents[n]), c.successors[n]);
    }
    forall x | x in r.order && x < c.size
      ensures r.made[x].UpToDate? <==> !Stale(c, ft0, r.made, r.mtime, x)
    {
      StaleSame(c, ft0, s, n, Remade, t, x);
    }
  }

  lemma UpToDateKeepsTimes(c: Config, ft0: seq<int>, s: State, n: Node)
    requires WellFormed(c) && Shaped(c) && Sized(c, s) && |ft0| == c.size
    requires Collected(c, s) && n < c.size && s.made[n].Unmade? && n in s.order && Awaited(c, s.order, n)
    requires forall x :: x in s.order && x < c.size && x != n ==>
      (s.made[x].UpToDate? <==> !Stale(c, ft0, s.made, s.mtime, x))
    requires Timed(c, ft0, s) && s.mtime[n] == Looked(c, ft0, n) && !Stale(c, ft0, s.made, s.mtime, n)
    ensures TimesOk(c, ft0, MakeUpdate(c, PassOver(c, s, n), n))
  {
    var s1 := PassOver(c, s, n);
    var r := MakeUpdate(c, s1, n);
    UpToDateCollected(c, s, n);
    UpdateFrame(c, s1, n);
    var t := s.mtime[n];
    assert s.mtime[n := t] == s.mtime;
    assert r.mtime == s.mtime by {
      ParentsFrame(c, Recheck(c, s1, n), n, c.parents[n]);
      WakeFrame(c, UpdateParents(c, Recheck(c, s1, n), n, c.parents[n]), c.successors[n]);
    }
    forall x | x in r.order && x < c.size
      ensures r.made[x].UpToDate? <==> !Stale(c, ft0, r.made, r.mtime, x)
    {
      StaleSame(c, ft0, s, n, UpToDate, t, x);
    }
  }
}
