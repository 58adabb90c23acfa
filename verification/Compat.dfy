/** The sequential engine: CompatMake makes a node by recursion over its children.
  *
  * The graph and the outcome of commands are given; the engine's variables are
  * the fields of a class.  Where nothing goes wrong, the result is a coherent
  * outcome in the sense of module Outcome, which is how it is compared with the
  * parallel engine.
  */
module Compat {
  import opened Graph
  import opened Scheduler
  import opened Protocol
  import opened JobTable
  import opened Readiness
  import opened Commands
  import opened Times
  import opened Outcome
  import opened Sequential

  predicate Decided(s: Stage) { s.Verdict? && Settled(s.made) }

  function MadeOf(s: Stage): Made { if s.Verdict? then s.made else Unmade }

  function MadeMap(stage: seq<Stage>): (r: seq<Made>)
    ensures |r| == |stage| && forall i :: 0 <= i < |r| ==> r[i] == MadeOf(stage[i])
  {
    seq(|stage|, i requires 0 <= i < |stage| => MadeOf(stage[i]))
  }

  lemma OneVerdict(stage: seq<Stage>, n: Node, m: Made)
    requires n < |stage|
    ensures MadeMap(stage[n := Verdict(m)]) == MadeMap(stage)[n := m]
  {
  }

  // ------------------------------------------------ what the stamps amount to

  /** An undecided node has been told at most what its decided children report, and all that the
    * up-to-date ones report. */
  ghost predicate Told(c: Config, made: seq<Made>, mtime: seq<int>, cmtime: seq<int>, childMade: seq<bool>, p: Node)
    requires Shaped(c) && |made| == |mtime| == |cmtime| == |childMade| == c.size && p < c.size
  {
    && 0 <= cmtime[p] <= Newest(c, made, mtime, c.children[p])
    && (childMade[p] ==> AnyRemade(c, made, c.children[p]))
    && (forall y :: y in c.children[p] && y < c.size && made[y].UpToDate? ==> cmtime[p] >= mtime[y])
  }

  /** Before its verdict, a node has no time and its file is as it was. */
  ghost predicate Files(c: Config, ft0: seq<int>, post: seq<int>, made: seq<Made>, mtime: seq<int>, ftime: seq<int>)
    requires Shaped(c) && |made| == |mtime| == |ft0| == |post| == |ftime| == c.size
  {
    forall n: Node :: n < c.size ==>
      && (!Settled(made[n]) ==> mtime[n] == 0)
      && ftime[n] == if made[n].Remade? && HasCommand(c, n) then post[n] else ft0[n]
  }

  ghost predicate SoFar(c: Config, ft0: seq<int>, post: seq<int>, made: seq<Made>, mtime: seq<int>,
      cmtime: seq<int>, childMade: seq<bool>, ftime: seq<int>) {
    && WellFormed(c) && |post| == c.size && |cmtime| == |childMade| == c.size
    && Coherent(c, ft0, made, mtime, ftime)
    && Files(c, ft0, post, made, mtime, ftime)
    && (forall p: Node :: p < c.size && !Settled(made[p]) ==> Told(c, made, mtime, cmtime, childMade, p))
  }

  /** All children of n have a verdict, and n has heard from each of them. */
  ghost predicate Heard(c: Config, made: seq<Made>, mtime: seq<int>, cmtime: seq<int>, childMade: seq<bool>, n: Node, i: nat)
    requires Shaped(c) && |made| == |mtime| == |cmtime| == |childMade| == c.size && n < c.size && i <= |c.children[n]|
  {
    forall j :: 0 <= j < i ==>
      var y := c.children[n][j];
      && Settled(made[y]) && cmtime[n] >= Report(c.attr[y], made[y], mtime[y])
      && (made[y].Remade? && !c.attr[y].exec ==> childMade[n])
  }

  lemma {:induction false} NewestAttained(c: Config, made: seq<Made>, mtime: seq<int>, kids: seq<Node>, b: int)
    requires Shaped(c) && |made| == |mtime| == c.size && Within(kids, c.size) && b >= 0
    requires forall j :: 0 <= j < |kids| ==> b >= Report(c.attr[kids[j]], made[kids[j]], mtime[kids[j]])
    ensures Newest(c, made, mtime, kids) <= b
  {
    if kids != [] {
      assert Within(kids[1..], c.size);
      assert forall j :: 0 <= j < |kids[1..]| ==> kids[1..][j] == kids[j + 1];
      NewestAttained(c, made, mtime, kids[1..], b);
    }
  }

  /** A node that has heard from all its children is judged by how they came out. */
  lemma HeardAll(c: Config, ft0: seq<int>, made: seq<Made>, mtime: seq<int>, cmtime: seq<int>, childMade: seq<bool>, n: Node)
    requires Shaped(c) && |made| == |mtime| == |cmtime| == |childMade| == |ft0| == c.size && n < c.size
    requires Told(c, made, mtime, cmtime, childMade, n) && Heard(c, made, mtime, cmtime, childMade, n, |c.children[n]|)
    ensures OutOfDate(c.attr[n], childMade[n], Looked(c, ft0, n), cmtime[n]) == Stale(c, ft0, made, mtime, n)
    ensures forall y :: y in c.children[n] ==> y < c.size && Settled(made[y])
  {
    NewestAttained(c, made, mtime, c.children[n], cmtime[n]);
  }

  lemma ToldSettles(c: Config, made: seq<Made>, mtime: seq<int>, cmtime: seq<int>, childMade: seq<bool>, n: Node,
      m: Made, t: int, cmtime': seq<int>, childMade': seq<bool>, p: Node)
    requires Shaped(c) && |made| == |mtime| == |cmtime| == |childMade| == |cmtime'| == |childMade'| == c.size
    requires n < c.size && p < c.size && !Settled(made[n]) && Settled(m)
    requires Told(c, made, mtime, cmtime, childMade, p)
    requires cmtime[p] <= cmtime'[p]
    requires cmtime'[p] == cmtime[p] || (n in c.children[p] && cmtime'[p] == Max(cmtime[p], Report(c.attr[n], m, t)))
    requires childMade'[p] ==> childMade[p] || (n in c.children[p] && m.Remade? && !c.attr[n].exec)
    requires m.UpToDate? && n in c.children[p] ==> cmtime'[p] >= t
    ensures Told(c, made[n := m], mtime[n := t], cmtime', childMade', p)
  {
    NewestSettles(c, made, mtime, n, m, t, c.children[p]);
    AnySettles(c, made, n, m, c.children[p]);
  }

  /** A verdict on n that follows from its children keeps the outcome coherent. */
  lemma CoherentSettles(c: Config, ft0: seq<int>, made: seq<Made>, mtime: seq<int>, ftime: seq<int>, n: Node,
      m: Made, t: int, f: int)
    requires Coherent(c, ft0, made, mtime, ftime) && n < c.size && !Settled(made[n]) && Settled(m)
    requires forall y :: y in c.children[n] ==> y < c.size && Settled(made[y])
    requires m.UpToDate? <==> !Stale(c, ft0, made, mtime, n)
    requires t == if m.UpToDate? then Looked(c, ft0, n) else Rechecked(c, f)
    ensures Coherent(c, ft0, made[n := m], mtime[n := t], ftime[n := f])
  {
    var made', mtime' := made[n := m], mtime[n := t];
    forall x: Node | x < c.size && Settled(made'[x])
      ensures Stale(c, ft0, made', mtime', x) == Stale(c, ft0, made, mtime, x)
    {
      assert n !in c.children[x];
      NewestSettles(c, made, mtime, n, m, t, c.children[x]);
      AnySettles(c, made, n, m, c.children[x]);
    }
  }

  lemma UpToDateSoFar(c: Config, ft0: seq<int>, post: seq<int>, made: seq<Made>, mtime: seq<int>, cmtime: seq<int>,
      childMade: seq<bool>, ftime: seq<int>, n: Node)
    requires SoFar(c, ft0, post, made, mtime, cmtime, childMade, ftime) && n < c.size && !Settled(made[n])
    requires Heard(c, made, mtime, cmtime, childMade, n, |c.children[n]|)
    requires !Stale(c, ft0, made, mtime, n)
    ensures var t := Looked(c, ft0, n);
      SoFar(c, ft0, post, made[n := UpToDate], mtime[n := t], StampAll(cmtime, t, c.parents[n]), childMade, ftime)
  {
    var t := Looked(c, ft0, n);
    HeardAll(c, ft0, made, mtime, cmtime, childMade, n);
    CoherentSettles(c, ft0, made, mtime, ftime, n, UpToDate, t, ftime[n]);
    assert ftime[n := ftime[n]] == ftime;
    var made' := made[n := UpToDate];
    forall p: Node | p < c.size && !Settled(made'[p])
      ensures Told(c, made', mtime[n := t], StampAll(cmtime, t, c.parents[n]), childMade, p)
    {
      UpToDateTold(c, made, mtime, cmtime, childMade, n, t, p);
    }
  }

  lemma UpToDateTold(c: Config, made: seq<Made>, mtime: seq<int>, cmtime: seq<int>, childMade: seq<bool>, n: Node, t: int, p: Node)
    requires WellFormed(c) && |made| == |mtime| == |cmtime| == |childMade| == c.size && n < c.size && p < c.size
    requires !Settled(made[n]) && Told(c, made, mtime, cmtime, childMade, p)
    ensures Told(c, made[n := UpToDate], mtime[n := t], StampAll(cmtime, t, c.parents[n]), childMade, p)
  {
    StampAllEffect(cmtime, t, c.parents[n], p);
    assert Count(c.children[p], n) == Count(c.parents[n], p);
    ToldSettles(c, made, mtime, cmtime, childMade, n, UpToDate, t, StampAll(cmtime, t, c.parents[n]), childMade, p);
  }

  /** The one parent that is told of a remade node. */
  predicate TellsOne(c: Config, n: Node, t: int, p: Node, cmtime: seq<int>, childMade: seq<bool>,
      cmtime': seq<int>, childMade': seq<bool>)
    requires Shaped(c) && |cmtime| == |childMade| == c.size && n < c.size && p < c.size
  {
    if c.attr[n].exec then cmtime' == cmtime && childMade' == childMade
    else cmtime' == cmtime[p := Max(cmtime[p], t)] && childMade' == childMade[p := true]
  }

  lemma RemadeSoFar(c: Config, ft0: seq<int>, post: seq<int>, made: seq<Made>, mtime: seq<int>, cmtime: seq<int>,
      childMade: seq<bool>, ftime: seq<int>, n: Node, f: int, p: Node, cmtime': seq<int>, childMade': seq<bool>)
    requires SoFar(c, ft0, post, made, mtime, cmtime, childMade, ftime) && n < c.size && !Settled(made[n])
    requires Heard(c, made, mtime, cmtime, childMade, n, |c.children[n]|)
    requires Stale(c, ft0, made, mtime, n) && f == if HasCommand(c, n) then post[n] else ft0[n]
    requires p < c.size && (p == n || n in c.children[p])
    requires TellsOne(c, n, Rechecked(c, f), p, cmtime, childMade, cmtime', childMade')
    ensures SoFar(c, ft0, post, made[n := Remade], mtime[n := Rechecked(c, f)], cmtime', childMade', ftime[n := f])
  {
    var t := Rechecked(c, f);
    assert Coherent(c, ft0, made[n := Remade], mtime[n := t], ftime[n := f]) by {
      HeardAll(c, ft0, made, mtime, cmtime, childMade, n);
      CoherentSettles(c, ft0, made, mtime, ftime, n, Remade, t, f);
    }
    RemadeTold(c, made, mtime, cmtime, childMade, n, t, p, cmtime', childMade');
    RemadeFiles(c, ft0, post, made, mtime, ftime, n, t, f);
  }

  lemma RemadeFiles(c: Config, ft0: seq<int>, post: seq<int>, made: seq<Made>, mtime: seq<int>, ftime: seq<int>,
      n: Node, t: int, f: int)
    requires Shaped(c) && |made| == |mtime| == |ft0| == |post| == |ftime| == c.size && n < c.size
    requires Files(c, ft0, post, made, mtime, ftime) && f == if HasCommand(c, n) then post[n] else ft0[n]
    ensures Files(c, ft0, post, made[n := Remade], mtime[n := t], ftime[n := f])
  {
  }

  lemma RemadeTold(c: Config, made: seq<Made>, mtime: seq<int>, cmtime: seq<int>, childMade: seq<bool>,
      n: Node, t: int, p: Node, cmtime': seq<int>, childMade': seq<bool>)
    requires Shaped(c) && |made| == |mtime| == |cmtime| == |childMade| == c.size
    requires n < c.size && !Settled(made[n]) && p < c.size && (p == n || n in c.children[p])
    requires forall q: Node :: q < c.size && !Settled(made[q]) ==> Told(c, made, mtime, cmtime, childMade, q)
    requires TellsOne(c, n, t, p, cmtime, childMade, cmtime', childMade')
    ensures var made' := made[n := Remade];
      forall q: Node :: q < c.size && !Settled(made'[q]) ==> Told(c, made', mtime[n := t], cmtime', childMade', q)
  {
    var made' := made[n := Remade];
    forall q: Node | q < c.size && !Settled(made'[q])
      ensures Told(c, made', mtime[n := t], cmtime', childMade', q)
    {
      ToldSettles(c, made, mtime, cmtime, childMade, n, Remade, t, cmtime', childMade', q);
    }
  }

  /** Telling an undecided parent of a decided child again. */
  lemma ToldAgain(c: Config, ft0: seq<int>, post: seq<int>, made: seq<Made>, mtime: seq<int>, cmtime: seq<int>,
      childMade: seq<bool>, ftime: seq<int>, n: Node, p: Node, cmtime': seq<int>, childMade': seq<bool>)
    requires SoFar(c, ft0, post, made, mtime, cmtime, childMade, ftime) && n < c.size && Settled(made[n])
    requires p < c.size && (p == n || n in c.children[p])
    requires |cmtime'| == |childMade'| == c.size
    requires cmtime' == cmtime || (!(made[n].Remade? && c.attr[n].exec) && cmtime' == cmtime[p := Max(cmtime[p], mtime[n])])
    requires childMade' == childMade || (made[n].Remade? && !c.attr[n].exec && childMade' == childMade[p := true])
    ensures SoFar(c, ft0, post, made, mtime, cmtime', childMade', ftime)
  {
    forall q: Node | q < c.size && !Settled(made[q]) ensures Told(c, made, mtime, cmtime', childMade', q) {
      assert Told(c, made, mtime, cmtime, childMade, q);
      if q == p {
        NewestCovers(c, made, mtime, c.children[p], n);
        if childMade' != childMade { KidRemade(c, made, c.children[p], n); }
      }
    }
  }

  lemma KidRemade(c: Config, made: seq<Made>, kids: seq<Node>, y: Node)
    requires Shaped(c) && |made| == c.size && Within(kids, c.size) && y in kids
    requires made[y].Remade? && !c.attr[y].exec
    ensures AnyRemade(c, made, kids)
  {
    var i :| 0 <= i < |kids| && kids[i] == y;
  }

  // -------------------------------------------------------------- the engine

  /** Nothing can go wrong: every command succeeds or its failure is ignored, every source exists
    * or may be missing, and dependencies go down in rank. */
  ghost predicate Harmless(c: Config, ft0: seq<int>, results: seq<seq<bool>>, rank: seq<nat>) {
    && Shaped(c) && |ft0| == |results| == |rank| == c.size
    && (forall n: Node :: n < c.size ==> |results[n]| == |c.commands[n]|)
    && (forall n: Node, k: nat :: n < c.size && k < |c.commands[n]| ==>
          c.commands[n][k].blank || results[n][k] || c.commands[n][k].dash || c.attr[n].ignore)
    && (forall n: Node :: n < c.size && c.attr[n].Nop() && c.commands[n] == [] ==> ft0[n] != 0 || c.attr[n].optional)
    && (forall n: Node, y :: n < c.size && y in c.children[n] ==> y < c.size && rank[y] < rank[n])
  }

  /** What a call of CompatMake does not undo. */
  ghost predicate Onward(stage0: seq<Stage>, mtime0: seq<int>, cmtime0: seq<int>, childMade0: seq<bool>,
      stage1: seq<Stage>, mtime1: seq<int>, cmtime1: seq<int>, childMade1: seq<bool>) {
    && |stage0| == |stage1| == |mtime0| == |mtime1| == |cmtime0| == |cmtime1| == |childMade0| == |childMade1|
    && forall x :: 0 <= x < |stage0| ==>
      && (Decided(stage0[x]) ==> stage1[x] == stage0[x] && mtime1[x] == mtime0[x])
      && (stage0[x].BeingMade? <==> stage1[x].BeingMade?)
      && (stage1[x].Verdict? && !stage0[x].Verdict? ==> Decided(stage1[x]))
      && cmtime0[x] <= cmtime1[x] && (childMade0[x] ==> childMade1[x])
  }

  lemma OnwardTwice(stage0: seq<Stage>, mtime0: seq<int>, cmtime0: seq<int>, childMade0: seq<bool>,
      stage1: seq<Stage>, mtime1: seq<int>, cmtime1: seq<int>, childMade1: seq<bool>,
      stage2: seq<Stage>, mtime2: seq<int>, cmtime2: seq<int>, childMade2: seq<bool>)
    requires Onward(stage0, mtime0, cmtime0, childMade0, stage1, mtime1, cmtime1, childMade1)
    requires Onward(stage1, mtime1, cmtime1, childMade1, stage2, mtime2, cmtime2, childMade2)
    ensures Onward(stage0, mtime0, cmtime0, childMade0, stage2, mtime2, cmtime2, childMade2)
  {
  }

  predicate AtRest(stage: seq<Stage>) {
    forall x :: 0 <= x < |stage| ==> !stage[x].BeingMade?
  }

  predicate Kept(stage0: seq<Stage>, stage: seq<Stage>) {
    |stage0| == |stage| && forall x :: 0 <= x < |stage| && Decided(stage0[x]) ==> Decided(stage[x])
  }

  predicate AllDecided(stage: seq<Stage>, targets: seq<Node>) {
    forall j :: 0 <= j < |targets| ==> targets[j] < |stage| && Decided(stage[targets[j]])
  }

  lemma OneMoreDecided(stage0: seq<Stage>, stage: seq<Stage>, targets: seq<Node>, i: nat)
    requires i < |targets| && AllDecided(stage0, targets[..i]) && Kept(stage0, stage)
    requires targets[i] < |stage| && Decided(stage[targets[i]])
    ensures AllDecided(stage, targets[..i + 1])
  {
    forall j | 0 <= j < i + 1 ensures targets[j] < |stage| && Decided(stage[targets[j]]) {
      if j < i { assert targets[..i][j] == targets[j]; }
    }
  }

  /** What becomes of a node that is made without a failure. */
  lemma RemakeTells(w: Work, b: Book, n: Node, p: Node, r: Book)
    requires Whole(w, b) && n < w.c.size && p < w.c.size && !b.exited && r == Sequential.Remake(w, b, n, p) && !r.trouble
    ensures !r.exited && r.make == b.make && r.stage == b.stage[n := Verdict(Remade)]
    ensures r.ftime == b.ftime[n := if HasCommand(w.c, n) then w.post[n] else b.ftime[n]]
    ensures r.mtime == b.mtime[n := Rechecked(w.c, r.ftime[n])]
    ensures TellsOne(w.c, n, r.mtime[n], p, b.cmtime, b.childMade, r.cmtime, r.childMade)
  {
    assert b.ftime[n := b.ftime[n]] == b.ftime;
  }

  class Engine {
    const c: Config
    const ft0: seq<int>              // the times of the files at first
    const post: seq<int>             // the times that commands leave them with
    const results: seq<seq<bool>>    // does the k-th command of a node exit with status 0?
    ghost const rank: seq<nat>

    var make: seq<bool>
    var stage: seq<Stage>
    var childMade: seq<bool>
    var mtime: seq<int>
    var cmtime: seq<int>
    var ftime: seq<int>
    var exited: bool
    ghost var first: seq<Node>       // for whom a node was first visited
    ghost var trouble: bool          // a failure, a cycle or an exit has been met

    constructor (c: Config, ft0: seq<int>, post: seq<int>, results: seq<seq<bool>>, ghost rank: seq<nat>)
      requires WellFormed(c) && |ft0| == |post| == |results| == |rank| == c.size
      requires forall n: Node :: n < c.size ==> |results[n]| == |c.commands[n]|
      ensures this.c == c && this.ft0 == ft0 && this.post == post && this.results == results && this.rank == rank
      ensures Ready() && !trouble && Good()
      ensures forall x :: 0 <= x < c.size ==> stage[x].Waiting?
      ensures Now() == Sequential.Fresh(Given(), ft0)
    {
      this.c, this.ft0, this.post, this.results, this.rank := c, ft0, post, results, rank;
      make := seq(c.size, i => false);
      stage := seq(c.size, i => Waiting);
      childMade := seq(c.size, i => false);
      mtime := seq(c.size, i => 0);
      cmtime := seq(c.size, i => 0);
      ftime := ft0;
      first := seq(c.size, _ => 0);
      exited, trouble := false, false;
      new;
      forall p: Node | p < c.size
        ensures Newest(c, MadeMap(stage), mtime, c.children[p]) == 0
      {
        NothingReported(c, MadeMap(stage), mtime, c.children[p]);
      }
    }

    ghost predicate Ready()
      reads this
    {
      && Shaped(c) && |ft0| == |post| == |results| == c.size
      && (forall n: Node :: n < c.size ==> |results[n]| == |c.commands[n]|)
      && |make| == |stage| == |childMade| == |mtime| == |cmtime| == |ftime| == |first| == c.size
    }

    ghost function Given(): Work
    {
      Work(c, post, results)
    }

    /** The variables, for comparison with the functions of module Sequential. */
    ghost function Now(): Book
      reads this
    {
      Book(make, stage, childMade, mtime, cmtime, ftime, exited, first, trouble)
    }

    ghost predicate Good()
      reads this
    {
      !trouble ==>
        && !exited
        && SoFar(c, ft0, post, MadeMap(stage), mtime, cmtime, childMade, ftime)
        && (forall x :: 0 <= x < |stage| && stage[x].Verdict? ==> Settled(stage[x].made))
        && (forall x :: 0 <= x < |stage| && |make| == |stage| && stage[x].BeingMade? ==> make[x])
    }

    /** The values of the fields that a call works on. */
    ghost predicate OnwardFrom(stage0: seq<Stage>, mtime0: seq<int>, cmtime0: seq<int>, childMade0: seq<bool>)
      reads this
    {
      Onward(stage0, mtime0, cmtime0, childMade0, stage, mtime, cmtime, childMade)
    }

    /** Make_TimeStamp for every parent of n. */
    method StampParents(n: Node)
      requires Ready() && n < c.size
      modifies `cmtime
      ensures |old(cmtime)| == c.size && Within(c.parents[n], c.size)
      ensures cmtime == StampAll(old(cmtime), mtime[n], c.parents[n])
    {
      var i := 0;
      assert c.parents[n][0..] == c.parents[n];
      while i < |c.parents[n]|
        invariant 0 <= i <= |c.parents[n]| && |cmtime| == c.size
        invariant Within(c.parents[n][i..], c.size)
        invariant StampAll(cmtime, mtime[n], c.parents[n][i..]) == StampAll(old(cmtime), mtime[n], c.parents[n])
      {
        var p := c.parents[n][i];
        assert c.parents[n][i..][0] == p && c.parents[n][i..][1..] == c.parents[n][i + 1..];
        if mtime[n] > cmtime[p] { cmtime := cmtime[p := mtime[n]]; }
        assert cmtime[p := cmtime[p]] == cmtime;
        i := i + 1;
      }
    }

    /** CompatRunCommand for the commands of n, until one fails.  Only a command that has become empty is
      * blank here; the parallel engine also passes over one that is only "@", "-" or blanks. */
    method RunCommands(n: Node)
      requires Ready() && n < c.size
      modifies `stage, `ftime
      ensures Now() == Sequential.RunCommands(Given(), old(Now()), n)
    {
      var k := 0;
      while k < |c.commands[n]|
        invariant 0 <= k <= |c.commands[n]| && stage == old(stage)
        invariant forall j :: 0 <= j < k ==>
          c.commands[n][j].blank || results[n][j] || c.commands[n][j].dash || c.attr[n].ignore
        invariant ftime == if exists j :: 0 <= j < k && !c.commands[n][j].blank then old(ftime)[n := post[n]] else old(ftime)
      {
        if !c.commands[n][k].blank {
          ftime := ftime[n := post[n]];
          if !results[n][k] && !c.commands[n][k].dash && !c.attr[n].ignore {
            stage := stage[n := Verdict(Failed)];
            return;
          }
        }
        k := k + 1;
      }
    }

    /** Tell p about its child n that already has a verdict. */
    method Tell(n: Node, p: Node)
      requires Ready() && Good() && n < c.size && p < c.size && (p == n || n in c.children[p])
      requires Decided(stage[n]) && (trouble || p == n || stage[p].BeingMade?)
      modifies `childMade, `cmtime
      ensures Ready() && Good()
      ensures Now() == Sequential.Tell(Given(), old(Now()), n, p)
      ensures !trouble ==> OnwardFrom(stage, mtime, old(cmtime), old(childMade))
      ensures !trouble && p != n ==>
        && cmtime[p] >= Report(c.attr[n], MadeOf(stage[n]), mtime[n])
        && (MadeOf(stage[n]).Remade? && !c.attr[n].exec ==> childMade[p])
    {
      ghost var made := MadeMap(stage);
      if !c.attr[n].exec {
        if stage[n].made.Remade? { childMade := childMade[p := true]; }
        if mtime[n] > cmtime[p] { cmtime := cmtime[p := mtime[n]]; }
      }
      if !trouble {
        assert old(cmtime)[p := old(cmtime)[p]] == old(cmtime);
        ToldAgain(c, ft0, post, made, mtime, old(cmtime), old(childMade), ftime, n, p, cmtime, childMade);
        if p != n { assert Told(c, made, mtime, old(cmtime), old(childMade), p); }
      }
    }

    /** What has become of n, if nothing went wrong: it alone has a verdict now, and p knows. */
    ghost predicate DecidedFrom(n: Node, p: Node, stage0: seq<Stage>, mtime0: seq<int>, cmtime0: seq<int>, childMade0: seq<bool>)
      reads this
    {
      && Ready() && n < c.size && p < c.size && |stage0| == |mtime0| == |cmtime0| == |childMade0| == c.size
      && Decided(stage[n]) && stage == stage0[n := stage[n]] && mtime == mtime0[n := mtime[n]]
      && (forall x :: 0 <= x < c.size ==> cmtime0[x] <= cmtime[x] && (childMade0[x] ==> childMade[x]))
      && (p != n ==>
            && cmtime[p] >= Report(c.attr[n], MadeOf(stage[n]), mtime[n])
            && (MadeOf(stage[n]).Remade? && !c.attr[n].exec ==> childMade[p]))
    }

    /** Job_CheckCommands, with Fatal for a node that there is no way to make. */
    method CheckCommands(n: Node) returns (ok: bool)
      requires Ready() && n < c.size
      modifies `mtime, `exited, `trouble
      ensures mtime == if c.attr[n].Nop() && c.commands[n] == [] then old(mtime)[n := ftime[n]] else old(mtime)
      ensures ok <==> !(c.attr[n].Nop() && c.commands[n] == [] && ftime[n] == 0 && !c.attr[n].optional)
      ensures exited == (old(exited) || (!ok && !c.keepgoing))
      ensures trouble == (old(trouble) || !ok)
    {
      ok := true;
      if c.attr[n].Nop() && c.commands[n] == [] {
        mtime := mtime[n := ftime[n]];
        if ftime[n] == 0 && !c.attr[n].optional {
          ok, trouble := false, true;
          if !c.keepgoing { exited := true; }
        }
      }
    }

    /** The end of CompatMake for a node whose commands have been run: its new time, and p is told. */
    method Finish(n: Node, p: Node)
      requires Ready() && n < c.size && p < c.size
      modifies `stage, `childMade, `mtime, `cmtime
      ensures Ready()
      ensures stage == old(stage)[n := Verdict(Remade)]
      ensures mtime == old(mtime)[n := Rechecked(c, ftime[n])]
      ensures TellsOne(c, n, mtime[n], p, old(cmtime), old(childMade), cmtime, childMade)
      ensures Now() == Sequential.Finish(Given(), old(Now()), n, p)
    {
      stage := stage[n := Verdict(Remade)];
      mtime := mtime[n := if ftime[n] == 0 then c.now else ftime[n]];
      if !c.attr[n].exec {
        childMade := childMade[p := true];
        if mtime[n] > cmtime[p] { cmtime := cmtime[p := mtime[n]]; }
      }
      assert old(cmtime)[p := old(cmtime)[p]] == old(cmtime);
    }

    /** The part of CompatMake for a node that is out of date. */
    method Remake(n: Node, p: Node)
      requires Ready() && n < c.size && p < c.size && !exited && (!trouble ==> stage[n].BeingMade?)
      modifies `make, `stage, `childMade, `mtime, `cmtime, `ftime, `exited, `trouble
      ensures Ready()
      ensures old(trouble) ==> trouble
      ensures Now() == Sequential.Remake(Given(), old(Now()), n, p)
    {
      var ok := CheckCommands(n);
      if exited { trouble := trouble || !ok; return; }
      if ok { RunCommands(n); } else { stage := stage[n := Verdict(Failed)]; }
      if stage[n] != Verdict(Failed) {
        Finish(n, p);
      } else {
        trouble := true;
        if c.keepgoing { make := make[p := false]; } else { exited := true; }
      }
    }

    /** n has heard from all its children and its file has been looked up; before that, mtime was mtime0. */
    ghost predicate Judging(n: Node, p: Node, mtime0: seq<int>)
      reads this
    {
      && Ready() && n < c.size && p < c.size && (p == n || n in c.children[p]) && |mtime0| == c.size
      && (!trouble ==>
            && !exited && SoFar(c, ft0, post, MadeMap(stage), mtime0, cmtime, childMade, ftime)
            && (forall x :: 0 <= x < |stage| && stage[x].Verdict? ==> Settled(stage[x].made))
            && (forall x :: 0 <= x < |stage| && stage[x].BeingMade? ==> make[x])
            && stage[n].BeingMade? && mtime == mtime0[n := Looked(c, ft0, n)]
            && Heard(c, MadeMap(stage), mtime0, cmtime, childMade, n, |c.children[n]|))
    }

    /** n is up to date. */
    method PassOver(n: Node, p: Node, ghost mtime0: seq<int>)
      requires Judging(n, p, mtime0) && (!trouble ==> !Stale(c, ft0, MadeMap(stage), mtime0, n))
      modifies `stage, `cmtime
      ensures Ready() && Good()
      ensures Now() == Sequential.PassOver(Given(), old(Now()), n)
      ensures !trouble ==> DecidedFrom(n, p, old(stage), mtime0, old(cmtime), old(childMade))
    {
      ghost var made0 := MadeMap(stage);
      StampParents(n);
      stage := stage[n := Verdict(UpToDate)];
      assert MadeMap(stage) == made0[n := UpToDate];
      if !trouble { BecomesUpToDate(n, made0, mtime0, old(cmtime), childMade, ftime, p); }
    }

    /** n is out of date. */
    method BringUp(n: Node, p: Node, ghost mtime0: seq<int>)
      requires Judging(n, p, mtime0) && !exited && (!trouble ==> Stale(c, ft0, MadeMap(stage), mtime0, n))
      modifies `make, `stage, `childMade, `mtime, `cmtime, `ftime, `exited, `trouble
      ensures Ready() && Good()
      ensures old(trouble) ==> trouble
      ensures Now() == Sequential.Remake(Given(), old(Now()), n, p)
      ensures !trouble ==> DecidedFrom(n, p, old(stage), mtime0, old(cmtime), old(childMade))
    {
      Remake(n, p);
      if !trouble {
        RemakeTells(Given(), old(Now()), n, p, Now());
        RemadeIsGood(n, p, mtime0, old(Now()));
      }
    }

    /** The part of CompatMake after the children: judge n, run its commands, tell p. */
    method Decide(n: Node, p: Node)
      requires Ready() && Good() && !exited && n < c.size && p < c.size && (p == n || n in c.children[p])
      requires !trouble ==>
        && stage[n].BeingMade? && (p == n || stage[p].BeingMade?)
        && Heard(c, MadeMap(stage), mtime, cmtime, childMade, n, |c.children[n]|)
      modifies `make, `stage, `childMade, `mtime, `cmtime, `ftime, `exited, `trouble
      ensures Ready() && Good()
      ensures old(trouble) ==> trouble
      ensures Now() == Sequential.Decide(Given(), old(Now()), n, p)
      ensures !trouble ==> DecidedFrom(n, p, old(stage), old(mtime), old(cmtime), old(childMade))
    {
      if !trouble { HeardAll(c, ft0, MadeMap(stage), mtime, cmtime, childMade, n); }
      if !c.attr[n].join && !c.attr[n].exec { mtime := mtime[n := ftime[n]]; }
      assert Judging(n, p, old(mtime));
      if OutOfDate(c.attr[n], childMade[n], mtime[n], cmtime[n]) {
        BringUp(n, p, old(mtime));
      } else {
        PassOver(n, p, old(mtime));
      }
    }

    lemma BecomesUpToDate(n: Node, made0: seq<Made>, mtime0: seq<int>, cmtime0: seq<int>, childMade0: seq<bool>,
        ftime0: seq<int>, p: Node)
      requires Ready() && n < c.size && p < c.size && (p == n || n in c.children[p])
      requires SoFar(c, ft0, post, made0, mtime0, cmtime0, childMade0, ftime0) && !Settled(made0[n])
      requires Heard(c, made0, mtime0, cmtime0, childMade0, n, |c.children[n]|) && !Stale(c, ft0, made0, mtime0, n)
      requires MadeMap(stage) == made0[n := UpToDate] && mtime == mtime0[n := Looked(c, ft0, n)]
      requires cmtime == StampAll(cmtime0, mtime[n], c.parents[n]) && childMade == childMade0 && ftime == ftime0
      ensures SoFar(c, ft0, post, MadeMap(stage), mtime, cmtime, childMade, ftime)
      ensures forall x :: 0 <= x < c.size ==> cmtime0[x] <= cmtime[x]
      ensures p != n ==> cmtime[p] >= mtime[n]
    {
      UpToDateSoFar(c, ft0, post, made0, mtime0, cmtime0, childMade0, ftime0, n);
      forall x | 0 <= x < c.size ensures cmtime0[x] <= cmtime[x] && (n in c.children[x] ==> cmtime[x] >= mtime[n]) {
        StampAllEffect(cmtime0, mtime[n], c.parents[n], x);
        assert Count(c.children[x], n) == Count(c.parents[n], x);
      }
    }

    lemma RemadeIsGood(n: Node, p: Node, mtime0: seq<int>, b: Book)
      requires Ready() && !trouble && !exited && Whole(Given(), b) && n < c.size && p < c.size
      requires (p == n || n in c.children[p]) && b.stage[n].BeingMade?
      requires SoFar(c, ft0, post, MadeMap(b.stage), mtime0, b.cmtime, b.childMade, b.ftime)
      requires forall x :: 0 <= x < |b.stage| && b.stage[x].Verdict? ==> Settled(b.stage[x].made)
      requires forall x :: 0 <= x < |b.stage| && b.stage[x].BeingMade? ==> b.make[x]
      requires Heard(c, MadeMap(b.stage), mtime0, b.cmtime, b.childMade, n, |c.children[n]|)
      requires Stale(c, ft0, MadeMap(b.stage), mtime0, n) && b.mtime == mtime0[n := Looked(c, ft0, n)]
      requires make == b.make && stage == b.stage[n := Verdict(Remade)]
      requires ftime == b.ftime[n := if HasCommand(c, n) then post[n] else b.ftime[n]]
      requires mtime == b.mtime[n := Rechecked(c, ftime[n])]
      requires TellsOne(c, n, mtime[n], p, b.cmtime, b.childMade, cmtime, childMade)
      ensures Good() && DecidedFrom(n, p, b.stage, mtime0, b.cmtime, b.childMade)
    {
      OneVerdict(b.stage, n, Remade);
      assert mtime == mtime0[n := mtime[n]];
      BecomesRemade(n, MadeMap(b.stage), mtime0, b.cmtime, b.childMade, b.ftime, p);
    }

    lemma BecomesRemade(n: Node, made0: seq<Made>, mtime0: seq<int>, cmtime0: seq<int>, childMade0: seq<bool>,
        ftime0: seq<int>, p: Node)
      requires Ready() && n < c.size && p < c.size && (p == n || n in c.children[p])
      requires SoFar(c, ft0, post, made0, mtime0, cmtime0, childMade0, ftime0) && !Settled(made0[n])
      requires Heard(c, made0, mtime0, cmtime0, childMade0, n, |c.children[n]|) && Stale(c, ft0, made0, mtime0, n)
      requires MadeMap(stage) == made0[n := Remade]
      requires ftime == ftime0[n := if HasCommand(c, n) then post[n] else ft0[n]]
      requires mtime == mtime0[n := Rechecked(c, ftime[n])]
      requires TellsOne(c, n, mtime[n], p, cmtime0, childMade0, cmtime, childMade)
      ensures SoFar(c, ft0, post, MadeMap(stage), mtime, cmtime, childMade, ftime)
      ensures forall x :: 0 <= x < c.size ==> cmtime0[x] <= cmtime[x] && (childMade0[x] ==> childMade[x])
      ensures p != n && !c.attr[n].exec ==> cmtime[p] >= mtime[n] && childMade[p]
    {
      RemadeSoFar(c, ft0, post, made0, mtime0, cmtime0, childMade0, ftime0, n, ftime[n], p, cmtime, childMade);
    }

    /** A turn of the loop of CompatMake over the children of n, which began at b0. */
    method MakeChild(n: Node, i: nat, ghost b0: Book, ghost last: Book)
      requires Ready() && Good() && n < c.size && i < |c.children[n]| && (trouble || stage[n].BeingMade?)
      requires !exited && LeadsTo(Given(), Now(), n, i, last)
      requires !trouble ==> Heard(c, MadeMap(stage), mtime, cmtime, childMade, n, i)
      requires !trouble ==> OnwardFrom(b0.stage, b0.mtime, b0.cmtime, b0.childMade)
      modifies `make, `stage, `childMade, `mtime, `cmtime, `ftime, `exited, `first, `trouble
      ensures Ready() && Good()
      ensures old(trouble) ==> trouble
      ensures !trouble ==> OnwardFrom(b0.stage, b0.mtime, b0.cmtime, b0.childMade) && stage[n].BeingMade?
      ensures !trouble ==> Heard(c, MadeMap(stage), mtime, cmtime, childMade, n, i + 1)
      ensures Unvisited(Now()) <= Unvisited(old(Now())) && LeadsTo(Given(), Now(), n, i + 1, last)
      decreases Unvisited(Now()), 3
    {
      var y := c.children[n][i];
      assert y in c.children[n] && y < c.size;
      Make(y, n);
      if !trouble {
        HeardMore(n, i, old(stage), old(mtime), old(cmtime), old(childMade));
        OnwardTwice(b0.stage, b0.mtime, b0.cmtime, b0.childMade, old(stage), old(mtime), old(cmtime), old(childMade),
                    stage, mtime, cmtime, childMade);
      }
    }

    /** The loop of CompatMake over the children of n. */
    method MakeChildren(n: Node)
      requires Ready() && Good() && n < c.size && (trouble || stage[n].BeingMade?)
      modifies `make, `stage, `childMade, `mtime, `cmtime, `ftime, `exited, `first, `trouble
      ensures Ready() && Good()
      ensures old(trouble) ==> trouble
      ensures !trouble ==> OnwardFrom(old(stage), old(mtime), old(cmtime), old(childMade))
      ensures !trouble ==> Heard(c, MadeMap(stage), mtime, cmtime, childMade, n, |c.children[n]|)
      ensures Now() == Sequential.Children(Given(), old(Now()), n, 0)
      decreases Unvisited(Now()), 4
    {
      var i := 0;
      ghost var b0 := Now();
      ghost var last := Sequential.Children(Given(), b0, n, 0);
      LeadsToChildren(Given(), b0, n, 0);
      while i < |c.children[n]| && !exited
        invariant 0 <= i <= |c.children[n]|
        invariant Ready() && Good() && (trouble || stage[n].BeingMade?)
        invariant old(trouble) ==> trouble
        invariant Unvisited(Now()) <= Unvisited(b0)
        invariant !trouble ==> OnwardFrom(b0.stage, b0.mtime, b0.cmtime, b0.childMade)
        invariant !trouble ==> Heard(c, MadeMap(stage), mtime, cmtime, childMade, n, i)
        invariant LeadsTo(Given(), Now(), n, i, last)
      {
        MakeChild(n, i, b0, last);
        i := i + 1;
      }
    }

    lemma HeardMore(n: Node, i: nat, stage0: seq<Stage>, mtime0: seq<int>, cmtime0: seq<int>, childMade0: seq<bool>)
      requires Ready() && n < c.size && i < |c.children[n]|
      requires |stage0| == |mtime0| == |cmtime0| == |childMade0| == c.size
      requires OnwardFrom(stage0, mtime0, cmtime0, childMade0)
      requires Heard(c, MadeMap(stage0), mtime0, cmtime0, childMade0, n, i)
      requires var y := c.children[n][i];
        && Decided(stage[y]) && cmtime[n] >= Report(c.attr[y], MadeOf(stage[y]), mtime[y])
        && (MadeOf(stage[y]).Remade? && !c.attr[y].exec ==> childMade[n])
      requires !Decided(stage[n])
      ensures Heard(c, MadeMap(stage), mtime, cmtime, childMade, n, i + 1)
    {
      forall j | 0 <= j < i + 1
        ensures var y := c.children[n][j];
          && Decided(stage[y]) && cmtime[n] >= Report(c.attr[y], MadeOf(stage[y]), mtime[y])
          && (MadeOf(stage[y]).Remade? && !c.attr[y].exec ==> childMade[n])
      {
        if j < i { assert Decided(stage0[c.children[n][j]]); }
      }
    }

    /** CompatMake for a node that has been visited before. */
    method Revisit(n: Node, p: Node)
      requires Ready() && Good() && n < c.size && p < c.size && (p == n || n in c.children[p])
      requires trouble || stage[p].BeingMade? || (p == n && forall x :: 0 <= x < c.size ==> !stage[x].BeingMade?)
      requires !stage[n].Waiting?
      modifies `make, `stage, `childMade, `cmtime, `trouble
      ensures Ready() && Good()
      ensures old(trouble) ==> trouble
      ensures stage == old(stage) || (old(stage)[n].BeingMade? && stage == old(stage)[n := Verdict(Failed)])
      ensures !trouble ==> Decided(stage[n])
      ensures !trouble ==> OnwardFrom(old(stage), mtime, old(cmtime), old(childMade))
      ensures !trouble && p != n ==>
        && cmtime[p] >= Report(c.attr[n], MadeOf(stage[n]), mtime[n])
        && (MadeOf(stage[n]).Remade? && !c.attr[n].exec ==> childMade[p])
      ensures trouble ==> old(trouble) || old(stage)[n].BeingMade?
      ensures Now() == Sequential.Revisit(Given(), old(Now()), n, p)
    {
      if stage[n] == Verdict(Failed) {
        make, trouble := make[p := false], true;
      } else if stage[n].BeingMade? {
        stage, make, trouble := stage[n := Verdict(Failed)], make[p := false], true;
      } else if stage[n] == Verdict(Remade) || stage[n] == Verdict(UpToDate) {
        Tell(n, p);
      }
    }

    /** The visit of n begins: it is being made, and its children are made first. */
    method Begin(n: Node, p: Node)
      requires Ready() && Good() && n < c.size && p < c.size && stage[n].Waiting?
      modifies `make, `stage, `childMade, `mtime, `cmtime, `ftime, `exited, `first, `trouble
      ensures Ready() && Good()
      ensures old(trouble) ==> trouble
      ensures !trouble ==> OnwardFrom(old(stage)[n := BeingMade], old(mtime), old(cmtime), old(childMade))
      ensures !trouble ==> stage[n].BeingMade? && Heard(c, MadeMap(stage), mtime, cmtime, childMade, n, |c.children[n]|)
      ensures Now() == Sequential.Children(Given(), Sequential.Begin(Given(), old(Now()), n, p), n, 0)
      decreases Unvisited(Now()), 0
    {
      make, stage, first := make[n := true], stage[n := BeingMade], first[n := p];
      assert MadeMap(stage) == MadeMap(old(stage));
      assert Now() == Sequential.Begin(Given(), old(Now()), n, p);
      MakeChildren(n);
    }

    /** CompatMake for a node that has not been visited yet. */
    method Visit(n: Node, p: Node)
      requires n < |stage| && stage[n].Waiting?
      requires Ready() && Good() && n < c.size && p < c.size && (p == n || n in c.children[p])
      requires trouble || stage[p].BeingMade? || (p == n && forall x :: 0 <= x < c.size ==> !stage[x].BeingMade?)
      modifies `make, `stage, `childMade, `mtime, `cmtime, `ftime, `exited, `first, `trouble
      ensures Ready() && Good()
      ensures old(trouble) ==> trouble
      ensures !trouble ==> Decided(stage[n])
      ensures !trouble ==> OnwardFrom(old(stage), old(mtime), old(cmtime), old(childMade))
      ensures !trouble && p != n ==>
        && cmtime[p] >= Report(c.attr[n], MadeOf(stage[n]), mtime[n])
        && (MadeOf(stage[n]).Remade? && !c.attr[n].exec ==> childMade[p])
      ensures Now() == Sequential.Visit(Given(), old(Now()), n, p)
      decreases Unvisited(Now()), 1
    {
      Begin(n, p);
      if !exited { Close(n, p); }
    }

    /** The children of n have been dealt with: if one has stopped it, it is aborted. */
    method Close(n: Node, p: Node)
      requires Ready() && Good() && !exited && n < c.size && p < c.size && (p == n || n in c.children[p])
      requires !trouble ==>
        && stage[n].BeingMade? && (p == n || stage[p].BeingMade?)
        && Heard(c, MadeMap(stage), mtime, cmtime, childMade, n, |c.children[n]|)
      modifies `make, `stage, `childMade, `mtime, `cmtime, `ftime, `exited, `trouble
      ensures Ready() && Good()
      ensures old(trouble) ==> trouble
      ensures Now() == Sequential.Close(Given(), old(Now()), n, p)
      ensures !trouble ==> DecidedFrom(n, p, old(stage), old(mtime), old(cmtime), old(childMade))
    {
      if !make[n] {
        stage, make, trouble := stage[n := Verdict(Aborted)], make[p := false], true;
      } else {
        Decide(n, p);
      }
    }

    /** CompatMake: make n on behalf of its parent p (or of itself, if it is a target). */
    method Make(n: Node, p: Node)
      requires Ready() && Good() && n < c.size && p < c.size && (p == n || n in c.children[p])
      requires trouble || stage[p].BeingMade? || (p == n && forall x :: 0 <= x < c.size ==> !stage[x].BeingMade?)
      modifies `make, `stage, `childMade, `mtime, `cmtime, `ftime, `exited, `first, `trouble
      ensures Ready() && Good()
      ensures old(trouble) ==> trouble
      ensures !trouble ==> Decided(stage[n])
      ensures !trouble ==> OnwardFrom(old(stage), old(mtime), old(cmtime), old(childMade))
      ensures !trouble && p != n ==>
        && cmtime[p] >= Report(c.attr[n], MadeOf(stage[n]), mtime[n])
        && (MadeOf(stage[n]).Remade? && !c.attr[n].exec ==> childMade[p])
      ensures Now() == Sequential.Make(Given(), old(Now()), n, p)
      decreases Unvisited(Now()), 2
    {
      if stage[n].Waiting? { Visit(n, p); } else { Revisit(n, p); }
    }

    /** CompatMake for a target, outside of any other call. */
    method MakeTarget(n: Node)
      requires Ready() && Good() && n < c.size && (trouble || AtRest(stage))
      modifies `make, `stage, `childMade, `mtime, `cmtime, `ftime, `exited, `first, `trouble
      ensures Ready() && Good()
      ensures !trouble ==> !old(trouble) && Decided(stage[n])
      ensures !trouble ==> AtRest(stage) && Kept(old(stage), stage)
      ensures Now() == Sequential.Make(Given(), old(Now()), n, n)
    {
      Make(n, n);
    }

    /** All is well so far, and the targets done have their verdict. */
    ghost predicate DoneWith(done: seq<Node>)
      reads this
    {
      Ready() && Good() && (!trouble ==> AtRest(stage) && AllDecided(stage, done))
    }

    /** The turn of the loop of Compat_Run for the i-th target. */
    method NextTarget(targets: seq<Node>, i: nat)
      requires Ready() && i < |targets| && Within(targets, c.size) && DoneWith(targets[..i])
      modifies `make, `stage, `childMade, `mtime, `cmtime, `ftime, `exited, `first, `trouble
      ensures DoneWith(targets[..i + 1])
      ensures Now() == Sequential.Make(Given(), old(Now()), targets[i], targets[i])
    {
      ghost var stage0 := stage;
      MakeTarget(targets[i]);
      if !trouble { OneMoreDecided(stage0, stage, targets, i); }
    }

    /** Compat_Run: make the targets, one after the other. */
    method Run(targets: seq<Node>)
      requires Ready() && Good() && Within(targets, c.size)
      requires Now() == Sequential.Fresh(Given(), ft0)
      modifies `make, `stage, `childMade, `mtime, `cmtime, `ftime, `exited, `first, `trouble
      ensures Ready()
      ensures Now() == Sequential.Targets(Given(), old(Now()), targets)
      ensures Descends(Given(), rank) ==> Explained(Given(), ft0, targets, Now())
      ensures !trouble ==> CompatOutcome(c, ft0, post, targets, MadeMap(stage), mtime, ftime) && !exited
      ensures !old(trouble) && Harmless(c, ft0, results, rank) ==> !trouble
    {
      var i := 0;
      assert targets[0..] == targets;
      while i < |targets| && !exited
        invariant 0 <= i <= |targets| && DoneWith(targets[..i])
        invariant Within(targets[i..], c.size)
        invariant Sequential.Targets(Given(), Now(), targets[i..]) == Sequential.Targets(Given(), old(Now()), targets)
      {
        assert targets[i..][0] == targets[i] && targets[i..][1..] == targets[i + 1..];
        NextTarget(targets, i);
        i := i + 1;
      }
      if Descends(Given(), rank) { WhoIsToBlame(Given(), ft0, rank, targets); }
      if Harmless(c, ft0, results, rank) { HarmlessIsClean(targets, old(Now())); }
      if !trouble {
        assert targets[..i] == targets;
        GoodOutcome(targets);
      }
    }

    lemma HarmlessIsClean(targets: seq<Node>, b: Book)
      requires Sound(Given()) && Harmless(c, ft0, results, rank) && Within(targets, c.size)
      requires b == Sequential.Fresh(Given(), ft0) && Now() == Sequential.Targets(Given(), b, targets)
      ensures !trouble
    {
      RunIsClean(Given(), ft0, rank, b, targets, Now());
    }

    lemma GoodOutcome(targets: seq<Node>)
      requires Ready() && Good() && !trouble && Within(targets, c.size) && AllDecided(stage, targets)
      ensures CompatOutcome(c, ft0, post, targets, MadeMap(stage), mtime, ftime)
    {
    }
  }

  /** With -k, two nodes depend on 1, which depends on 0. */
  const FORK := Config(4, [[], [0], [1], [1]], [[1], [2, 3], [], []], [[], [], [], []], [[], [], [], []],
    seq(4, _ => Attr(true, false, false, false, false, false, false)), seq(4, _ => [Command(false, false)]), 1, 1, true, 1)

  /** Targets 2 and 3 are made in turn, and the command of 0 fails. */
  const FORK_WORK := Work(FORK, [0, 0, 0, 0], [[false], [true], [true], [true]])

  function ForkBook(make: seq<bool>, stage: seq<Stage>, first: seq<Node>, trouble: bool): Book {
    Book(make, stage, [false, false, false, false], [0, 0, 0, 0], [0, 0, 0, 0], [0, 0, 0, 0], false, first, trouble)
  }

  /** 0 is visited for 1, and fails. */
  lemma ForkLeaf(b: Book)
    requires b == ForkBook([false, true, true, false], [Waiting, BeingMade, BeingMade, Waiting], [0, 2, 2, 0], false)
    ensures Sequential.Make(FORK_WORK, b, 0, 1)
         == ForkBook([true, false, true, false], [Verdict(Failed), BeingMade, BeingMade, Waiting], [1, 2, 2, 0], true)
  {
    var w := FORK_WORK;
    var b0 := Sequential.Begin(w, b, 0, 1);
    assert Fails(w, 0) by { assert !w.c.commands[0][0].blank; }
    assert Sequential.Children(w, b0, 0, 0) == b0;
    assert Sequential.Make(w, b, 0, 1) == Sequential.Visit(w, b, 0, 1) == Sequential.Close(w, b0, 0, 1);
  }

  /** 2 is visited, and for it 1. */
  lemma ForkFirst(b: Book)
    requires b == ForkBook([false, false, false, false], [Waiting, Waiting, Waiting, Waiting], [0, 0, 0, 0], false)
    ensures Sequential.Make(FORK_WORK, b, 2, 2)
         == ForkBook([true, false, false, false], [Verdict(Failed), Verdict(Aborted), Verdict(Aborted), Waiting], [1, 2, 2, 0], true)
  {
    var w := FORK_WORK;
    var b2 := Sequential.Begin(w, b, 2, 2);
    var b1 := Sequential.Begin(w, b2, 1, 2);
    ForkLeaf(b1);
    var e0 := Sequential.Make(w, b1, 0, 1);
    assert Sequential.Children(w, b1, 1, 0) == Sequential.Children(w, e0, 1, 1) == e0;
    var e1 := Sequential.Make(w, b2, 1, 2);
    assert e1 == Sequential.Visit(w, b2, 1, 2) == Sequential.Close(w, e0, 1, 2);
    assert Sequential.Children(w, b2, 2, 0) == Sequential.Children(w, e1, 2, 1) == e1;
  }

  /** 3 is visited, and for it 1 once more. */
  lemma ForkSecond(b: Book)
    requires b == ForkBook([true, false, false, false], [Verdict(Failed), Verdict(Aborted), Verdict(Aborted), Waiting], [1, 2, 2, 0], true)
    ensures Sequential.Make(FORK_WORK, b, 3, 3).stage == [Verdict(Failed), Verdict(Aborted), Verdict(Aborted), Verdict(Remade)]
  {
    var w := FORK_WORK;
    var b3 := Sequential.Begin(w, b, 3, 3);
    assert Sequential.Make(w, b3, 1, 3) == b3;
    assert Sequential.Children(w, b3, 3, 0) == Sequential.Children(w, b3, 3, 1) == b3;
    assert Sequential.Make(w, b, 3, 3) == Sequential.Visit(w, b, 3, 3) == Sequential.Close(w, b3, 3, 3);
    assert !Fails(w, 3);
  }

  /** After 0 has failed, and 1 and 2 have been aborted for it, 3 is made: 1 was aborted for 2. */
  method SecondParentGoesOn() returns (engine: Engine)
    ensures fresh(engine) && engine.c == FORK
    ensures engine.stage == [Verdict(Failed), Verdict(Aborted), Verdict(Aborted), Verdict(Remade)]
  {
    ForkIsWellFormed();
    engine := new Engine(FORK, [0, 0, 0, 0], FORK_WORK.post, FORK_WORK.results, [0, 1, 2, 2]);
    ForkRun(engine.Now());
    engine.Run([2, 3]);
  }

  lemma OneTarget(w: Work, b: Book, x: Node, rest: seq<Node>)
    requires Whole(w, b) && x < w.c.size && Within(rest, w.c.size) && !b.exited
    ensures Sequential.Targets(w, b, [x] + rest) == Sequential.Targets(w, Sequential.Make(w, b, x, x), rest)
  {
    assert ([x] + rest)[1..] == rest;
  }

  lemma ForkRun(b: Book)
    requires b == Sequential.Fresh(FORK_WORK, [0, 0, 0, 0])
    ensures Sequential.Targets(FORK_WORK, b, [2, 3]).stage
         == [Verdict(Failed), Verdict(Aborted), Verdict(Aborted), Verdict(Remade)]
  {
    var b2 := Sequential.Make(FORK_WORK, b, 2, 2);
    ForkFirst(b);
    ForkSecond(b2);
    OneTarget(FORK_WORK, b, 2, [3]);
    OneTarget(FORK_WORK, b2, 3, []);
    assert [2] + [3] == [2, 3] && [3] + [] == [3];
  }

  lemma ForkIsWellFormed()
    ensures WellFormed(FORK)
  {
    var c := FORK;
    forall x, y | 0 <= x < 4 && 0 <= y < 4 ensures Count(c.children[x], y) == Count(c.parents[y], x) {
      assert Count([0], y) == if y == 0 then 1 else 0;
      assert Count([1], y) == if y == 1 then 1 else 0;
      assert Count([1], x) == if x == 1 then 1 else 0;
      assert [2, 3][1..] == [3] && Count([3], x) == if x == 3 then 1 else 0;
    }
  }

  /** What a run of the sequential engine that met no trouble leaves behind. */
  ghost predicate CompatOutcome(c: Config, ft0: seq<int>, post: seq<int>, targets: seq<Node>,
      made: seq<Made>, mtime: seq<int>, ftime: seq<int>) {
    && WellFormed(c) && |post| == c.size && Coherent(c, ft0, made, mtime, ftime)
    && Files(c, ft0, post, made, mtime, ftime)
    && forall i :: 0 <= i < |targets| ==> targets[i] < c.size && Settled(made[targets[i]])
  }

  /** The two engines agree on every node that both have settled, however the parallel one was
    * scheduled and however far it got. */
  lemma EnginesAgree(c: Config, c': Config, ft0: seq<int>, post: seq<int>, s: State, targets: seq<Node>,
      made: seq<Made>, mtime: seq<int>, ftime: seq<int>, x: Node)
    requires ReachedWith(c, ft0, post, s) && SameWork(c, c') && CompatOutcome(c', ft0, post, targets, made, mtime, ftime)
    requires x < c.size && Settled(s.made[x]) && Settled(made[x])
    ensures s.made[x] == made[x] && s.mtime[x] == mtime[x]
  {
    ReachedFacts(c, ft0, post, s);
    RunIsCoherent(c, ft0, s);
    CoherentForSameWork(c, c', ft0, made, mtime, ftime);
    forall y: Node | y < c.size && s.made[y].Remade? && made[y].Remade? ensures s.ftime[y] == ftime[y] {
      TouchedIfCommand(c, s, y);
      assert HasCommand(c, y) == HasCommand(c', y);
    }
    CoherentAgree(c, ft0, s.order, s.made, s.mtime, s.ftime, made, mtime, ftime);
    assert AgreeAt(s.made, s.mtime, made, mtime, x);
  }

  /** Exactly the nodes below the targets are marked. */
  ghost predicate MarksReachable(c: Config, targets: seq<Node>, make: seq<bool>)
    requires Shaped(c)
  {
    |make| == c.size && forall x: Node :: x < c.size ==> (make[x] <==> Below(c, targets, x))
  }

  ghost predicate Below(c: Config, targets: seq<Node>, x: Node)
    requires Shaped(c)
  {
    exists p :: Descent(c, p) && p[0] in targets && p[|p| - 1] == x
  }

  lemma {:induction false} SettledBelow(c: Config, ft0: seq<int>, made: seq<Made>, mtime: seq<int>, ftime: seq<int>, p: seq<Node>)
    requires Coherent(c, ft0, made, mtime, ftime) && Descent(c, p) && Settled(made[p[0]])
    ensures Settled(made[p[|p| - 1]])
    decreases |p|
  {
    if |p| > 1 {
      assert p[1] in c.children[p[0]];
      assert Descent(c, p[1..]) by {
        forall i | 0 <= i < |p[1..]| - 1 ensures p[1..][i + 1] in c.children[p[1..][i]] {
          assert p[(i + 1) + 1] in c.children[p[i + 1]];
        }
      }
      SettledBelow(c, ft0, made, mtime, ftime, p[1..]);
    }
  }

  /** Schedule independence against the sequential reference: a complete parallel run of the
    * targets and the sequential run give every node below the targets the same state. */
  lemma ParallelEqualsSequential(c: Config, c': Config, ft0: seq<int>, post: seq<int>, s: State, targets: seq<Node>,
      made: seq<Made>, mtime: seq<int>, ftime: seq<int>)
    requires ReachedWith(c, ft0, post, s) && CleanEnd(c, s) && s.numNodes == 0
    requires MarksReachable(c, targets, s.make)
    requires SameWork(c, c') && CompatOutcome(c', ft0, post, targets, made, mtime, ftime)
    ensures forall x: Node :: x < c.size && s.make[x] ==> s.made[x] == made[x] && s.mtime[x] == mtime[x]
  {
    forall x: Node | x < c.size && s.make[x] ensures s.made[x] == made[x] && s.mtime[x] == mtime[x] {
      CompleteEnd(c, s, x);
      assert Below(c, targets, x);
      var p :| Descent(c, p) && p[0] in targets && p[|p| - 1] == x;
      CoherentForSameWork(c, c', ft0, made, mtime, ftime);
      SettledBelow(c, ft0, made, mtime, ftime, p);
      EnginesAgree(c, c', ft0, post, s, targets, made, mtime, ftime, x);
    }
  }
}
