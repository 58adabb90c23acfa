/** What a call of CompatMake does, whatever goes wrong: the sequential engine as a function. */
module Sequential {
  import opened Graph
  import opened Scheduler
  import opened Protocol
  import opened Outcome

  /** The `made` field here: not visited, being made, or with a verdict. */
  datatype Stage = Waiting | BeingMade | Verdict(made: Made)

  /** The graph, the times that commands leave files with, and which commands exit with status 0. */
  datatype Work = Work(c: Config, post: seq<int>, results: seq<seq<bool>>)

  /** The variables of the engine. */
  datatype Book = Book(
    make: seq<bool>,
    stage: seq<Stage>,
    childMade: seq<bool>,
    mtime: seq<int>,
    cmtime: seq<int>,
    ftime: seq<int>,
    exited: bool,
    // History, never read by the engine:
    first: seq<Node>,   // for whom a node was first visited
    trouble: bool)      // a failure, a cycle or an exit has been met

  predicate Sound(w: Work) {
    && Shaped(w.c) && |w.post| == |w.results| == w.c.size
    && (forall n: Node :: n < w.c.size ==> |w.results[n]| == |w.c.commands[n]|)
  }

  predicate Whole(w: Work, b: Book) {
    && Sound(w)
    && |b.make| == |b.stage| == |b.childMade| == |b.mtime| == |b.cmtime| == |b.ftime| == |b.first| == w.c.size
  }

  function Unvisited(b: Book): set<Node> {
    set x: Node | x < |b.stage| && b.stage[x].Waiting?
  }

  /** Does a command of n fail in a way that counts? */
  predicate Fails(w: Work, n: Node)
    requires Sound(w) && n < w.c.size
  {
    exists k :: 0 <= k < |w.c.commands[n]| &&
      !w.c.commands[n][k].blank && !w.results[n][k] && !w.c.commands[n][k].dash && !w.c.attr[n].ignore
  }

  /** There is no way to make n: it is not a target, has no commands and no file, and is not optional. */
  predicate NoWay(w: Work, ft: seq<int>, n: Node)
    requires Sound(w) && n < w.c.size == |ft|
  {
    w.c.attr[n].Nop() && w.c.commands[n] == [] && ft[n] == 0 && !w.c.attr[n].optional
  }

  /** The commands of n are run, until one fails. */
  function RunCommands(w: Work, b: Book, n: Node): (r: Book)
    requires Whole(w, b) && n < w.c.size
    ensures Whole(w, r)
  {
    b.(ftime := if HasCommand(w.c, n) then b.ftime[n := w.post[n]] else b.ftime,
       stage := if Fails(w, n) then b.stage[n := Verdict(Failed)] else b.stage)
  }

  /** n has been made, and p is told. */
  function Finish(w: Work, b: Book, n: Node, p: Node): (r: Book)
    requires Whole(w, b) && n < w.c.size && p < w.c.size
    ensures Whole(w, r)
  {
    var t := if b.ftime[n] == 0 then w.c.now else b.ftime[n];
    var b1 := b.(stage := b.stage[n := Verdict(Remade)], mtime := b.mtime[n := t]);
    if w.c.attr[n].exec then b1
    else b1.(childMade := b.childMade[p := true], cmtime := b.cmtime[p := Max(b.cmtime[p], t)])
  }

  /** n is out of date: its commands are run if there is a way to make it. */
  function Remake(w: Work, b: Book, n: Node, p: Node): (r: Book)
    requires Whole(w, b) && n < w.c.size && p < w.c.size
    ensures Whole(w, r)
    ensures r.stage == b.stage[n := r.stage[n]] && (r.stage[n] == b.stage[n] || r.stage[n].Verdict?)
  {
    var b1 := if w.c.attr[n].Nop() && w.c.commands[n] == [] then b.(mtime := b.mtime[n := b.ftime[n]]) else b;
    if NoWay(w, b.ftime, n) && !w.c.keepgoing then b1.(exited := true, trouble := true)
    else
      var b2 := if NoWay(w, b.ftime, n) then b1.(stage := b1.stage[n := Verdict(Failed)]) else RunCommands(w, b1, n);
      if b2.stage[n] != Verdict(Failed) then Finish(w, b2, n, p)
      else if w.c.keepgoing then b2.(make := b2.make[p := false], trouble := true)
      else b2.(exited := true, trouble := true)
  }

  /** n is up to date. */
  function PassOver(w: Work, b: Book, n: Node): (r: Book)
    requires Whole(w, b) && n < w.c.size
    ensures Whole(w, r)
  {
    b.(cmtime := StampAll(b.cmtime, b.mtime[n], w.c.parents[n]), stage := b.stage[n := Verdict(UpToDate)])
  }

  /** The children of n have been dealt with and none has stopped it: it is judged. */
  function Decide(w: Work, b: Book, n: Node, p: Node): (r: Book)
    requires Whole(w, b) && n < w.c.size && p < w.c.size
    ensures Whole(w, r)
    ensures r.stage == b.stage[n := r.stage[n]] && (r.stage[n] == b.stage[n] || r.stage[n].Verdict?)
  {
    var b1 := if w.c.attr[n].join || w.c.attr[n].exec then b else b.(mtime := b.mtime[n := b.ftime[n]]);
    if OutOfDate(w.c.attr[n], b1.childMade[n], b1.mtime[n], b1.cmtime[n]) then Remake(w, b1, n, p)
    else PassOver(w, b1, n)
  }

  /** The children of n have been dealt with. */
  function Close(w: Work, b: Book, n: Node, p: Node): (r: Book)
    requires Whole(w, b) && n < w.c.size && p < w.c.size
    ensures Whole(w, r)
    ensures r.stage == b.stage[n := r.stage[n]] && (r.stage[n] == b.stage[n] || r.stage[n].Verdict?)
  {
    if b.make[n] then Decide(w, b, n, p)
    else b.(stage := b.stage[n := Verdict(Aborted)], make := b.make[p := false], trouble := true)
  }

  /** p is told of n, which has a verdict. */
  function Tell(w: Work, b: Book, n: Node, p: Node): (r: Book)
    requires Whole(w, b) && n < w.c.size && p < w.c.size
    ensures Whole(w, r)
  {
    if w.c.attr[n].exec then b
    else
      b.(childMade := if b.stage[n] == Verdict(Remade) then b.childMade[p := true] else b.childMade,
         cmtime := b.cmtime[p := Max(b.cmtime[p], b.mtime[n])])
  }

  /** n has been visited before. */
  function Revisit(w: Work, b: Book, n: Node, p: Node): (r: Book)
    requires Whole(w, b) && n < w.c.size && p < w.c.size && !b.stage[n].Waiting?
    ensures Whole(w, r) && Unvisited(r) == Unvisited(b)
  {
    if b.stage[n] == Verdict(Failed) then b.(make := b.make[p := false], trouble := true)
    else if b.stage[n].BeingMade? then
      b.(stage := b.stage[n := Verdict(Failed)], make := b.make[p := false], trouble := true)
    else if b.stage[n] == Verdict(Remade) || b.stage[n] == Verdict(UpToDate) then Tell(w, b, n, p)
    else b
  }

  /** The visit of n begins. */
  function Begin(w: Work, b: Book, n: Node, p: Node): (r: Book)
    requires Whole(w, b) && n < w.c.size && p < w.c.size && b.stage[n].Waiting?
    ensures Whole(w, r) && Unvisited(r) < Unvisited(b)
  {
    assert n in Unvisited(b);
    b.(make := b.make[n := true], stage := b.stage[n := BeingMade], first := b.first[n := p])
  }

  /** CompatMake for the children of n from the i-th on. */
  function Children(w: Work, b: Book, n: Node, i: nat): (r: Book)
    requires Whole(w, b) && n < w.c.size && i <= |w.c.children[n]|
    ensures Whole(w, r) && Unvisited(r) <= Unvisited(b)
    decreases Unvisited(b), 2, |w.c.children[n]| - i
  {
    if i == |w.c.children[n]| || b.exited then b
    else Children(w, Make(w, b, w.c.children[n][i], n), n, i + 1)
  }

  /** CompatMake: make n on behalf of its parent p (or of itself, if it is a target). */
  function Make(w: Work, b: Book, n: Node, p: Node): (r: Book)
    requires Whole(w, b) && n < w.c.size && p < w.c.size
    ensures Whole(w, r) && Unvisited(r) <= Unvisited(b)
    decreases Unvisited(b), 1, 0
  {
    if b.stage[n].Waiting? then Visit(w, b, n, p) else Revisit(w, b, n, p)
  }

  /** n has not been visited before. */
  function Visit(w: Work, b: Book, n: Node, p: Node): (r: Book)
    requires Whole(w, b) && n < w.c.size && p < w.c.size && b.stage[n].Waiting?
    ensures Whole(w, r) && Unvisited(r) <= Unvisited(b)
    decreases Unvisited(b), 0, 0
  {
    var b1 := Children(w, Begin(w, b, n, p), n, 0);
    if b1.exited then b1
    else
      CloseVisits(w, b1, n, p);
      Close(w, b1, n, p)
  }

  lemma CloseVisits(w: Work, b: Book, n: Node, p: Node)
    requires Whole(w, b) && n < w.c.size && p < w.c.size
    ensures Unvisited(Close(w, b, n, p)) <= Unvisited(b)
  {
  }

  /** Compat_Run for the targets from the i-th on. */
  function Targets(w: Work, b: Book, targets: seq<Node>): (r: Book)
    requires Whole(w, b) && Within(targets, w.c.size)
    ensures Whole(w, r)
    decreases |targets|
  {
    if targets == [] || b.exited then b
    else
      assert Within(targets[1..], w.c.size);
      Targets(w, Make(w, b, targets[0], targets[0]), targets[1..])
  }

  function Fresh(w: Work, ft0: seq<int>): (r: Book)
    requires Sound(w) && |ft0| == w.c.size
    ensures Whole(w, r)
  {
    var n := w.c.size;
    Book(seq(n, _ => false), seq(n, _ => Waiting), seq(n, _ => false), seq(n, _ => 0), seq(n, _ => 0), ft0, false,
         seq(n, _ => 0), false)
  }

  // ---------------------------------------------------- who is to blame

  /** Dependencies go down in rank. */
  ghost predicate Descends(w: Work, rank: seq<nat>) {
    && Sound(w) && |rank| == w.c.size
    && forall n: Node, y :: n < w.c.size && y in w.c.children[n] ==> y < w.c.size && rank[y] < rank[n]
  }

  /** One of the first i children of x stops it: one that failed, or that was aborted when it was
    * visited for x. */
  predicate Stopped(w: Work, b: Book, x: Node, i: nat)
    requires Whole(w, b) && x < w.c.size && i <= |w.c.children[x]|
  {
    exists j :: 0 <= j < i &&
      var y := w.c.children[x][j];
      b.stage[y] == Verdict(Failed) || (b.stage[y] == Verdict(Aborted) && b.first[y] == x)
  }

  /** The first i children of x have verdicts. */
  predicate Known(w: Work, b: Book, x: Node, i: nat)
    requires Whole(w, b) && x < w.c.size && i <= |w.c.children[x]|
  {
    forall j :: 0 <= j < i ==> b.stage[w.c.children[x][j]].Verdict?
  }

  /** The verdict on x is the right one. */
  ghost predicate Blamed(w: Work, ft0: seq<int>, b: Book, x: Node)
    requires Whole(w, b) && x < w.c.size == |ft0|
  {
    && Known(w, b, x, |w.c.children[x]|)
    && (b.stage[x] == Verdict(Aborted) <==> Stopped(w, b, x, |w.c.children[x]|))
    && (b.stage[x] == Verdict(Failed) ==> Fails(w, x) || NoWay(w, ft0, x))
    && (b.stage[x] == Verdict(Remade) ==> !Fails(w, x) && !NoWay(w, ft0, x))
    && b.stage[x] != Verdict(Unmade)
  }

  ghost predicate Right(w: Work, ft0: seq<int>, b: Book) {
    && Whole(w, b) && |ft0| == w.c.size
    && (forall x: Node :: x < w.c.size && b.stage[x].Verdict? ==> Blamed(w, ft0, b, x))
    && (forall x: Node {:trigger b.first[x]} :: x < w.c.size && !b.stage[x].Waiting? ==>
          b.first[x] < w.c.size && (b.first[x] == x || !b.stage[b.first[x]].Waiting?))
    && (forall x: Node :: x < w.c.size && w.c.commands[x] == [] ==> b.ftime[x] == ft0[x])
  }

  /** What making something on behalf of p does not undo. */
  ghost predicate Keeps(w: Work, b: Book, r: Book, p: Node) {
    && Whole(w, b) && Whole(w, r)
    && (forall x: Node :: x < w.c.size && b.stage[x].Verdict? ==> r.stage[x] == b.stage[x])
    && (forall x: Node :: x < w.c.size && b.stage[x].BeingMade? ==> r.stage[x].BeingMade?)
    && (forall x: Node :: x < w.c.size && b.stage[x].Waiting? && !r.exited ==> !r.stage[x].BeingMade?)
    && (forall x: Node {:trigger r.first[x]} {:trigger b.first[x]} :: x < w.c.size && !b.stage[x].Waiting? ==>
          r.first[x] == b.first[x])
    && (forall x: Node {:trigger r.first[x]} :: x < w.c.size && b.stage[x].Waiting? && !r.stage[x].Waiting? ==>
          r.first[x] < w.c.size && (b.stage[r.first[x]].Waiting? || r.first[x] == p))
    && (b.exited ==> r.exited)
  }

  lemma KeepsTwice(w: Work, b: Book, b1: Book, r: Book, p: Node)
    requires Keeps(w, b, b1, p) && Keeps(w, b1, r, p)
    ensures Keeps(w, b, r, p)
  {
  }

  /** What making n on behalf of p does. */
  ghost predicate MadeFor(w: Work, rank: seq<nat>, b: Book, r: Book, n: Node, p: Node) {
    && Keeps(w, b, r, p) && |rank| == w.c.size && n < w.c.size && p < w.c.size
    && (b.stage[n].Waiting? ==> !r.stage[n].Waiting? && r.first[n] == p)
    && (forall x: Node {:trigger r.first[x]} :: x < w.c.size && b.stage[x].Waiting? && !r.stage[x].Waiting? && x != n ==>
          b.stage[r.first[x]].Waiting?)
    && (forall x: Node :: x < w.c.size && rank[x] > rank[n] && x != p ==> r.make[x] == b.make[x])
    && (!r.exited ==> r.stage[n].Verdict?)
    && (!r.exited && p != n ==>
          (r.make[p] <==> b.make[p] && r.stage[n] != Verdict(Failed) && (r.stage[n] == Verdict(Aborted) ==> !b.stage[n].Waiting?)))
  }

  /** All that are being made are above n. */
  ghost predicate Under(w: Work, rank: seq<nat>, b: Book, n: Node, p: Node) {
    && Whole(w, b) && |rank| == w.c.size && n < w.c.size && p < w.c.size
    && (forall x: Node :: x < w.c.size && b.stage[x].BeingMade? ==> rank[x] > rank[n])
    && (p == n || (b.stage[p].BeingMade? && n in w.c.children[p]))
  }

  /** How far the loop over the children of n has come. */
  ghost predicate Halfway(w: Work, b: Book, n: Node, i: nat)
    requires Whole(w, b) && n < w.c.size && i <= |w.c.children[n]|
  {
    && Known(w, b, n, i)
    && (b.make[n] <==> !Stopped(w, b, n, i))
    && FirstAmong(w, b, n, w.c.children[n][..i])
  }

  /** A verdict on n that is right leaves the others right: n is not a child of any of them. */
  lemma SettleRight(w: Work, ft0: seq<int>, b: Book, r: Book, n: Node, m: Made)
    requires Right(w, ft0, b) && Whole(w, r) && n < w.c.size && b.stage[n].BeingMade? && Known(w, b, n, |w.c.children[n]|)
    requires n !in w.c.children[n]
    requires r.stage == b.stage[n := Verdict(m)] && r.first == b.first
    requires forall x: Node :: x < w.c.size && w.c.commands[x] == [] ==> r.ftime[x] == b.ftime[x]
    requires m == Aborted <==> Stopped(w, b, n, |w.c.children[n]|)
    requires m == Failed ==> Fails(w, n) || NoWay(w, ft0, n)
    requires m == Remade ==> !Fails(w, n) && !NoWay(w, ft0, n)
    requires m != Unmade
    ensures Right(w, ft0, r)
  {
    forall x: Node | x < w.c.size && r.stage[x].Verdict? ensures Blamed(w, ft0, r, x) {
      SettleStops(w, b, r, n, m, x);
    }
  }

  lemma SettleStops(w: Work, b: Book, r: Book, n: Node, m: Made, x: Node)
    requires Whole(w, b) && Whole(w, r) && n < w.c.size && x < w.c.size && b.stage[n].BeingMade?
    requires r.stage == b.stage[n := Verdict(m)] && r.first == b.first
    requires n !in w.c.children[x] || Known(w, b, x, |w.c.children[x]|)
    ensures Stopped(w, r, x, |w.c.children[x]|) == Stopped(w, b, x, |w.c.children[x]|)
    ensures Known(w, b, x, |w.c.children[x]|) ==> Known(w, r, x, |w.c.children[x]|)
  {
    forall j | 0 <= j < |w.c.children[x]|
      ensures r.stage[w.c.children[x][j]] == b.stage[w.c.children[x][j]]
    {
      assert w.c.children[x][j] in w.c.children[x];
    }
  }

  /** What judging n does. */
  ghost predicate Judged(w: Work, b: Book, r: Book, n: Node, p: Node)
    requires Whole(w, b) && Whole(w, r) && n < w.c.size && p < w.c.size
  {
    && r.first == b.first && r.stage == b.stage[n := r.stage[n]]
    && (forall x: Node :: x < w.c.size && w.c.commands[x] == [] ==> r.ftime[x] == b.ftime[x])
    && (match r.stage[n]
        case Verdict(Failed) => Fails(w, n) || NoWay(w, b.ftime, n)
        case Verdict(Remade) => !Fails(w, n) && !NoWay(w, b.ftime, n)
        case Verdict(UpToDate) => true
        case BeingMade => r.exited
        case _ => false)
    && r.make == if r.stage[n] == Verdict(Failed) && !r.exited then b.make[p := false] else b.make
  }

  lemma RemakeJudges(w: Work, b: Book, n: Node, p: Node)
    requires Whole(w, b) && n < w.c.size && p < w.c.size && b.stage[n].BeingMade? && !b.exited
    ensures Judged(w, b, Remake(w, b, n, p), n, p)
  {
  }

  lemma DecideJudges(w: Work, b: Book, n: Node, p: Node)
    requires Whole(w, b) && n < w.c.size && p < w.c.size && b.stage[n].BeingMade? && !b.exited
    ensures Judged(w, b, Decide(w, b, n, p), n, p)
  {
    var b1 := if w.c.attr[n].join || w.c.attr[n].exec then b else b.(mtime := b.mtime[n := b.ftime[n]]);
    RemakeJudges(w, b1, n, p);
  }

  lemma JudgedRight(w: Work, ft0: seq<int>, b: Book, r: Book, n: Node, p: Node)
    requires Right(w, ft0, b) && Whole(w, r) && n < w.c.size && p < w.c.size && n !in w.c.children[n]
    requires b.stage[n].BeingMade? && Known(w, b, n, |w.c.children[n]|) && !Stopped(w, b, n, |w.c.children[n]|)
    requires Judged(w, b, r, n, p)
    ensures Right(w, ft0, r)
  {
    if r.stage[n].Verdict? {
      SettleRight(w, ft0, b, r, n, r.stage[n].made);
    } else {
      assert r.stage == b.stage;
      RightSame(w, ft0, b, r);
    }
  }

  lemma CloseRight(w: Work, ft0: seq<int>, b: Book, n: Node, p: Node)
    requires Right(w, ft0, b) && n < w.c.size && p < w.c.size && !b.exited && n !in w.c.children[n]
    requires b.stage[n].BeingMade? && Known(w, b, n, |w.c.children[n]|)
    requires b.make[n] <==> !Stopped(w, b, n, |w.c.children[n]|)
    ensures var r := Close(w, b, n, p);
      && Right(w, ft0, r) && r.first == b.first && r.stage == b.stage[n := r.stage[n]] && !r.stage[n].Waiting?
      && (!r.exited ==>
            && r.stage[n].Verdict?
            && r.make == if r.stage[n] == Verdict(Failed) || r.stage[n] == Verdict(Aborted) then b.make[p := false] else b.make)
      && (r.exited ==> r.make == b.make)
  {
    var r := Close(w, b, n, p);
    if b.make[n] {
      DecideJudges(w, b, n, p);
      JudgedRight(w, ft0, b, r, n, p);
    } else {
      SettleRight(w, ft0, b, r, n, Aborted);
    }
  }

  lemma RightSame(w: Work, ft0: seq<int>, b: Book, r: Book)
    requires Right(w, ft0, b) && Whole(w, r) && r.stage == b.stage && r.first == b.first
    requires forall x: Node :: x < w.c.size && w.c.commands[x] == [] ==> r.ftime[x] == b.ftime[x]
    ensures Right(w, ft0, r)
  {
    forall x: Node | x < w.c.size && r.stage[x].Verdict? ensures Blamed(w, ft0, r, x) {
      assert Blamed(w, ft0, b, x);
    }
  }

  lemma BeginRight(w: Work, ft0: seq<int>, rank: seq<nat>, b: Book, n: Node, p: Node)
    requires Descends(w, rank) && Right(w, ft0, b) && Under(w, rank, b, n, p) && b.stage[n].Waiting?
    ensures var r := Begin(w, b, n, p); Right(w, ft0, r) && Halfway(w, r, n, 0)
  {
    var r := Begin(w, b, n, p);
    forall x: Node | x < w.c.size && r.stage[x].Verdict? ensures Blamed(w, ft0, r, x) {
      assert Blamed(w, ft0, b, x);
      forall j | 0 <= j < |w.c.children[x]|
        ensures var y := w.c.children[x][j]; r.stage[y] == b.stage[y] && r.first[y] == b.first[y]
      {
        assert b.stage[w.c.children[x][j]].Verdict?;
      }
    }
  }

  /** The children that have been made for n stay as they are. */
  lemma EarlierStay(w: Work, b: Book, r: Book, n: Node, i: nat)
    requires n < w.c.size && Keeps(w, b, r, n) && i <= |w.c.children[n]| && Known(w, b, n, i)
    ensures Known(w, r, n, i) && (Stopped(w, r, n, i) <==> Stopped(w, b, n, i))
  {
    var kids := w.c.children[n];
    forall j | 0 <= j < i
      ensures r.stage[kids[j]] == b.stage[kids[j]] && r.stage[kids[j]].Verdict? && r.first[kids[j]] == b.first[kids[j]]
    {
      assert b.stage[kids[j]].Verdict?;
    }
  }

  /** What was visited for n first is among the children dealt with. */
  ghost predicate FirstAmong(w: Work, b: Book, n: Node, kids: seq<Node>) {
    Whole(w, b) && forall x: Node {:trigger b.first[x]} :: x < w.c.size && !b.stage[x].Waiting? && b.first[x] == n && x != n ==> x in kids
  }

  lemma FirstMore(w: Work, rank: seq<nat>, b: Book, r: Book, n: Node, y: Node, kids: seq<Node>)
    requires MadeFor(w, rank, b, r, y, n) && FirstAmong(w, b, n, kids) && b.stage[n].BeingMade?
    ensures FirstAmong(w, r, n, kids + [y])
  {
  }

  lemma StoppedByLast(w: Work, b: Book, n: Node, i: nat)
    requires Whole(w, b) && n < w.c.size && i < |w.c.children[n]|
    ensures var y := w.c.children[n][i];
      Stopped(w, b, n, i + 1) <==>
        Stopped(w, b, n, i) || b.stage[y] == Verdict(Failed) || (b.stage[y] == Verdict(Aborted) && b.first[y] == n)
  {
  }

  lemma StoppedBySome(w: Work, b: Book, n: Node, i: nat, y: Node)
    requires Whole(w, b) && n < w.c.size && i <= |w.c.children[n]| && y in w.c.children[n][..i]
    requires b.stage[y] == Verdict(Aborted) && b.first[y] == n
    ensures Stopped(w, b, n, i)
  {
    var j :| 0 <= j < i && w.c.children[n][..i][j] == y;
    assert w.c.children[n][j] == y;
  }

  /** One more child has been made for n. */
  lemma OneMore(w: Work, rank: seq<nat>, b: Book, r: Book, n: Node, i: nat)
    requires n < w.c.size && Whole(w, b) && i < |w.c.children[n]| && Halfway(w, b, n, i) && b.stage[n].BeingMade?
    requires w.c.children[n][i] != n && MadeFor(w, rank, b, r, w.c.children[n][i], n) && !r.exited
    ensures Halfway(w, r, n, i + 1)
  {
    var kids, y := w.c.children[n], w.c.children[n][i];
    EarlierStay(w, b, r, n, i);
    FirstMore(w, rank, b, r, n, y, kids[..i]);
    assert kids[..i + 1] == kids[..i] + [y];
    StoppedByLast(w, r, n, i);
    if !b.stage[y].Waiting? && r.stage[y] == Verdict(Aborted) && r.first[y] == n {
      StoppedBySome(w, r, n, i, y);
    }
  }

  /** What making the children of n from the i-th on does. */
  ghost predicate KidsMade(w: Work, rank: seq<nat>, b: Book, r: Book, n: Node) {
    && Keeps(w, b, r, n) && |rank| == w.c.size && n < w.c.size
    && (forall x: Node :: x < w.c.size && rank[x] > rank[n] ==> r.make[x] == b.make[x])
    && (!r.exited ==> Halfway(w, r, n, |w.c.children[n]|))
  }

  /** n is being made, and so are only nodes above it. */
  ghost predicate Over(w: Work, rank: seq<nat>, b: Book, n: Node) {
    && Whole(w, b) && |rank| == w.c.size && n < w.c.size && b.stage[n].BeingMade?
    && (forall x: Node :: x < w.c.size && b.stage[x].BeingMade? && x != n ==> rank[x] > rank[n])
  }

  lemma StillOver(w: Work, rank: seq<nat>, b: Book, r: Book, n: Node, y: Node)
    requires Over(w, rank, b, n) && MadeFor(w, rank, b, r, y, n) && !r.exited
    ensures Over(w, rank, r, n)
  {
  }

  lemma KidsMore(w: Work, rank: seq<nat>, b: Book, b1: Book, r: Book, n: Node, y: Node)
    requires MadeFor(w, rank, b, b1, y, n) && KidsMade(w, rank, b1, r, n) && rank[y] < rank[n]
    ensures KidsMade(w, rank, b, r, n)
  {
    KeepsTwice(w, b, b1, r, n);
  }

  lemma OverIsUnder(w: Work, rank: seq<nat>, b: Book, n: Node, y: Node)
    requires Descends(w, rank) && Over(w, rank, b, n) && y in w.c.children[n]
    ensures y < w.c.size && rank[y] < rank[n] && Under(w, rank, b, y, n)
  {
  }

  /** From the i-th child of n on, the children lead to r. */
  ghost predicate LeadsTo(w: Work, b: Book, n: Node, i: nat, r: Book)
    requires Whole(w, b) && n < w.c.size && i <= |w.c.children[n]|
    decreases |w.c.children[n]| - i
  {
    if i == |w.c.children[n]| || b.exited then r == b
    else LeadsTo(w, Make(w, b, w.c.children[n][i], n), n, i + 1, r)
  }

  lemma {:induction false} LeadsToChildren(w: Work, b: Book, n: Node, i: nat)
    requires Whole(w, b) && n < w.c.size && i <= |w.c.children[n]|
    ensures LeadsTo(w, b, n, i, Children(w, b, n, i))
    decreases |w.c.children[n]| - i
  {
    if i < |w.c.children[n]| && !b.exited {
      LeadsToChildren(w, Make(w, b, w.c.children[n][i], n), n, i + 1);
    }
  }

  lemma OneByOne(w: Work, b: Book, n: Node, i: nat, r: Book)
    requires Whole(w, b) && n < w.c.size && i < |w.c.children[n]| && !b.exited && r == Children(w, b, n, i)
    ensures r == Children(w, Make(w, b, w.c.children[n][i], n), n, i + 1)
  {
  }

  lemma {:induction false} ChildRight(w: Work, ft0: seq<int>, rank: seq<nat>, b: Book, n: Node, i: nat, r: Book)
    requires Descends(w, rank) && Right(w, ft0, b) && n < w.c.size && i < |w.c.children[n]| && !b.exited
    requires Over(w, rank, b, n) && Halfway(w, b, n, i) && r == Make(w, b, w.c.children[n][i], n)
    ensures Right(w, ft0, r) && (!r.exited ==> Over(w, rank, r, n) && Halfway(w, r, n, i + 1))
    ensures rank[w.c.children[n][i]] < rank[n] && MadeFor(w, rank, b, r, w.c.children[n][i], n)
    decreases Unvisited(b), 2, 0
  {
    var y := w.c.children[n][i];
    OverIsUnder(w, rank, b, n, y);
    MakeRight(w, ft0, rank, b, y, n);
    if !r.exited {
      OneMore(w, rank, b, r, n, i);
      StillOver(w, rank, b, r, n, y);
    }
  }

  lemma {:induction false} ChildrenRight(w: Work, ft0: seq<int>, rank: seq<nat>, b: Book, n: Node, i: nat, r: Book)
    requires Descends(w, rank) && Right(w, ft0, b) && n < w.c.size && i <= |w.c.children[n]|
    requires !b.exited ==> Over(w, rank, b, n) && Halfway(w, b, n, i)
    requires r == Children(w, b, n, i)
    ensures Right(w, ft0, r) && KidsMade(w, rank, b, r, n)
    decreases Unvisited(b), 3, |w.c.children[n]| - i
  {
    if i < |w.c.children[n]| && !b.exited {
      OneByOne(w, b, n, i, r);
      var b1 := Make(w, b, w.c.children[n][i], n);
      ChildRight(w, ft0, rank, b, n, i, b1);
      ChildrenRight(w, ft0, rank, b1, n, i + 1, r);
      KidsMore(w, rank, b, b1, r, n, w.c.children[n][i]);
    }
  }

  lemma {:induction false} MakeRight(w: Work, ft0: seq<int>, rank: seq<nat>, b: Book, n: Node, p: Node)
    requires Descends(w, rank) && Right(w, ft0, b) && Under(w, rank, b, n, p) && !b.exited
    ensures Right(w, ft0, Make(w, b, n, p)) && MadeFor(w, rank, b, Make(w, b, n, p), n, p)
    decreases Unvisited(b), 1, 0
  {
    if b.stage[n].Waiting? {
      VisitRight(w, ft0, rank, b, n, p);
    } else {
      var r := Revisit(w, b, n, p);
      assert r.stage == b.stage && r.first == b.first && r.ftime == b.ftime;
      RightSame(w, ft0, b, r);
    }
  }

  lemma {:induction false} VisitRight(w: Work, ft0: seq<int>, rank: seq<nat>, b: Book, n: Node, p: Node)
    requires Descends(w, rank) && Right(w, ft0, b) && Under(w, rank, b, n, p) && !b.exited && b.stage[n].Waiting?
    ensures Right(w, ft0, Visit(w, b, n, p)) && MadeFor(w, rank, b, Visit(w, b, n, p), n, p)
    decreases Unvisited(b), 0, 0
  {
    var b0 := Begin(w, b, n, p);
    BeginRight(w, ft0, rank, b, n, p);
    var b1 := Children(w, b0, n, 0);
    ChildrenRight(w, ft0, rank, b0, n, 0, b1);
    if !b1.exited { CloseRight(w, ft0, b1, n, p); }
    VisitDoes(w, rank, b, b1, Visit(w, b, n, p), n, p);
  }

  /** What a visit amounts to. */
  lemma VisitDoes(w: Work, rank: seq<nat>, b: Book, b1: Book, r: Book, n: Node, p: Node)
    requires Descends(w, rank) && Under(w, rank, b, n, p) && !b.exited && b.stage[n].Waiting?
    requires KidsMade(w, rank, Begin(w, b, n, p), b1, n) && Whole(w, r)
    requires if b1.exited then r == b1
      else
        && r.first == b1.first && r.stage == b1.stage[n := r.stage[n]] && !r.stage[n].Waiting?
        && (!r.exited ==>
              && r.stage[n].Verdict?
              && r.make == if r.stage[n] == Verdict(Failed) || r.stage[n] == Verdict(Aborted) then b1.make[p := false] else b1.make)
        && (r.exited ==> r.make == b1.make)
    ensures MadeFor(w, rank, b, r, n, p)
  {
  }

  // ------------------------------------------------- where nothing can fail

  /** There is a way to make every node, and no command fails. */
  ghost predicate Sure(w: Work, ft0: seq<int>) {
    Sound(w) && |ft0| == w.c.size && forall n: Node :: n < w.c.size ==> !Fails(w, n) && !NoWay(w, ft0, n)
  }

  ghost predicate Clean(w: Work, ft0: seq<int>, b: Book) {
    && Whole(w, b) && |ft0| == w.c.size && !b.trouble && !b.exited
    && (forall x: Node :: x < w.c.size && b.stage[x].Verdict? ==> Settled(b.stage[x].made))
    && (forall x: Node :: x < w.c.size && b.stage[x].BeingMade? ==> b.make[x])
    && (forall x: Node :: x < w.c.size && w.c.commands[x] == [] ==> b.ftime[x] == ft0[x])
  }

  /** Only nodes of rank k and more are being made. */
  ghost predicate Above(w: Work, rank: seq<nat>, b: Book, k: nat) {
    Whole(w, b) && |rank| == w.c.size && forall x: Node :: x < w.c.size && b.stage[x].BeingMade? ==> k <= rank[x]
  }

  ghost predicate SameBusy(w: Work, b: Book, r: Book) {
    Whole(w, b) && Whole(w, r) && forall x: Node :: x < w.c.size ==> (b.stage[x].BeingMade? <==> r.stage[x].BeingMade?)
  }

  lemma RemakeClean(w: Work, ft0: seq<int>, b: Book, n: Node, p: Node, r: Book)
    requires Sure(w, ft0) && Clean(w, ft0, b) && n < w.c.size && p < w.c.size && b.stage[n].BeingMade?
    requires r == Remake(w, b, n, p)
    ensures !r.trouble && !r.exited && r.make == b.make && r.stage == b.stage[n := Verdict(Remade)]
    ensures forall x: Node :: x < w.c.size && w.c.commands[x] == [] ==> r.ftime[x] == ft0[x]
  {
  }

  lemma CloseClean(w: Work, ft0: seq<int>, b: Book, n: Node, p: Node, r: Book)
    requires Sure(w, ft0) && Clean(w, ft0, b) && n < w.c.size && p < w.c.size && b.stage[n].BeingMade?
    requires r == Close(w, b, n, p)
    ensures Clean(w, ft0, r) && r.stage == b.stage[n := r.stage[n]] && r.stage[n].Verdict?
  {
    var b1 := if w.c.attr[n].join || w.c.attr[n].exec then b else b.(mtime := b.mtime[n := b.ftime[n]]);
    assert Clean(w, ft0, b1);
    RemakeClean(w, ft0, b1, n, p, Remake(w, b1, n, p));
  }

  lemma {:induction false} ChildrenClean(w: Work, ft0: seq<int>, rank: seq<nat>, b: Book, n: Node, i: nat, r: Book)
    requires Descends(w, rank) && Sure(w, ft0) && Clean(w, ft0, b) && n < w.c.size && i <= |w.c.children[n]|
    requires Above(w, rank, b, rank[n]) && r == Children(w, b, n, i)
    ensures Clean(w, ft0, r) && SameBusy(w, b, r)
    decreases Unvisited(b), 2, |w.c.children[n]| - i
  {
    if i < |w.c.children[n]| {
      OneByOne(w, b, n, i, r);
      var y := w.c.children[n][i];
      assert y in w.c.children[n];
      var b1 := Make(w, b, y, n);
      MakeClean(w, ft0, rank, b, y, n, b1);
      ChildrenClean(w, ft0, rank, b1, n, i + 1, r);
    }
  }

  lemma {:induction false} MakeClean(w: Work, ft0: seq<int>, rank: seq<nat>, b: Book, n: Node, p: Node, r: Book)
    requires Descends(w, rank) && Sure(w, ft0) && Clean(w, ft0, b) && n < w.c.size && p < w.c.size
    requires Above(w, rank, b, rank[n] + 1) && r == Make(w, b, n, p)
    ensures Clean(w, ft0, r) && SameBusy(w, b, r)
    decreases Unvisited(b), 1, 0
  {
    if b.stage[n].Waiting? {
      var b0 := Begin(w, b, n, p);
      var b1 := Children(w, b0, n, 0);
      ChildrenClean(w, ft0, rank, b0, n, 0, b1);
      CloseClean(w, ft0, b1, n, p, r);
    }
  }

  /** Where nothing can fail, there is no trouble. */
  lemma {:induction false} RunIsClean(w: Work, ft0: seq<int>, rank: seq<nat>, b: Book, targets: seq<Node>, r: Book)
    requires Descends(w, rank) && Sure(w, ft0) && Clean(w, ft0, b) && Quiet(w, b)
    requires Within(targets, w.c.size) && r == Targets(w, b, targets)
    ensures Clean(w, ft0, r)
    decreases |targets|
  {
    if targets != [] {
      assert Within(targets[1..], w.c.size);
      var b1 := Make(w, b, targets[0], targets[0]);
      MakeClean(w, ft0, rank, b, targets[0], targets[0], b1);
      RunIsClean(w, ft0, rank, b1, targets[1..], r);
    }
  }

  // ------------------------------------------------------- the whole run

  ghost predicate Quiet(w: Work, b: Book) {
    Whole(w, b) && forall x: Node :: x < w.c.size ==> !b.stage[x].BeingMade?
  }

  lemma {:induction false} TargetsRight(w: Work, ft0: seq<int>, rank: seq<nat>, b: Book, targets: seq<Node>) returns (r: Book)
    requires Descends(w, rank) && Right(w, ft0, b) && Within(targets, w.c.size) && (!b.exited ==> Quiet(w, b))
    ensures r == Targets(w, b, targets) && Right(w, ft0, r) && (!r.exited ==> Quiet(w, r) && !b.exited)
    ensures forall x: Node :: x < w.c.size && b.stage[x].Verdict? ==> r.stage[x].Verdict?
    ensures !r.exited ==> forall i :: 0 <= i < |targets| ==> r.stage[targets[i]].Verdict?
    decreases |targets|
  {
    r := b;
    if targets != [] && !b.exited {
      var n := targets[0];
      assert Within(targets[1..], w.c.size);
      MakeRight(w, ft0, rank, b, n, n);
      r := TargetsRight(w, ft0, rank, Make(w, b, n, n), targets[1..]);
      if !r.exited {
        forall i | 0 <= i < |targets| ensures r.stage[targets[i]].Verdict? {
          if i > 0 { assert targets[1..][i - 1] == targets[i]; }
        }
      }
    }
  }

  predicate Path(w: Work, p: seq<Node>)
    requires Sound(w)
  {
    && p != []
    && (forall i :: 0 <= i < |p| ==> p[i] < w.c.size)
    && (forall i :: 0 <= i < |p| - 1 ==> p[i + 1] in w.c.children[p[i]])
  }

  /** A path from x to a node that failed, through nodes that were aborted when they were visited for
    * the one before. */
  predicate Blame(w: Work, b: Book, p: seq<Node>) {
    && Whole(w, b) && Path(w, p) && b.stage[p[|p| - 1]] == Verdict(Failed)
    && (forall i :: 0 < i < |p| - 1 ==> b.stage[p[i]] == Verdict(Aborted) && b.first[p[i]] == p[i - 1])
  }

  lemma BlameMore(w: Work, b: Book, x: Node, p: seq<Node>)
    requires Blame(w, b, p) && x < w.c.size && p[0] in w.c.children[x]
    requires |p| > 1 ==> b.stage[p[0]] == Verdict(Aborted) && b.first[p[0]] == x
    ensures Blame(w, b, [x] + p)
  {
    var q := [x] + p;
    forall i | 0 <= i < |q| - 1 ensures q[i + 1] in w.c.children[q[i]] {
      if i > 0 { assert p[i] in w.c.children[p[i - 1]]; }
    }
    forall i | 0 < i < |q| - 1 ensures b.stage[q[i]] == Verdict(Aborted) && b.first[q[i]] == q[i - 1] {
      if i > 1 { assert p[i - 1] == q[i]; }
    }
  }

  /** From every aborted node there is one. */
  lemma {:induction false} AbortedForFailure(w: Work, ft0: seq<int>, rank: seq<nat>, b: Book, x: Node) returns (p: seq<Node>)
    requires Descends(w, rank) && Right(w, ft0, b) && x < w.c.size && b.stage[x] == Verdict(Aborted)
    ensures Blame(w, b, p) && p[0] == x && |p| > 1
    decreases rank[x]
  {
    assert Blamed(w, ft0, b, x);
    var y := StoppedBy(w, b, x);
    var q := [y];
    if b.stage[y] == Verdict(Aborted) {
      q := AbortedForFailure(w, ft0, rank, b, y);
    }
    BlameMore(w, b, x, q);
    p := [x] + q;
  }

  lemma StoppedBy(w: Work, b: Book, x: Node) returns (y: Node)
    requires Whole(w, b) && x < w.c.size && Stopped(w, b, x, |w.c.children[x]|)
    ensures y in w.c.children[x] && y < w.c.size
    ensures b.stage[y] == Verdict(Failed) || (b.stage[y] == Verdict(Aborted) && b.first[y] == x)
  {
    var j :| 0 <= j < |w.c.children[x]| &&
      var y := w.c.children[x][j];
      b.stage[y] == Verdict(Failed) || (b.stage[y] == Verdict(Aborted) && b.first[y] == x);
    y := w.c.children[x][j];
  }

  lemma BlameStops(w: Work, b: Book, p: seq<Node>)
    requires Blame(w, b, p) && |p| > 1
    ensures Stopped(w, b, p[0], |w.c.children[p[0]]|)
  {
    assert p[0 + 1] in w.c.children[p[0]];
    var j :| 0 <= j < |w.c.children[p[0]]| && w.c.children[p[0]][j] == p[1];
  }

  /** A node that has a verdict is aborted exactly if there is one. */
  lemma AbortedExactlyWhen(w: Work, ft0: seq<int>, rank: seq<nat>, b: Book, x: Node)
    requires Descends(w, rank) && Right(w, ft0, b) && x < w.c.size && b.stage[x].Verdict?
    ensures b.stage[x] == Verdict(Aborted) <==> exists p :: Blame(w, b, p) && |p| > 1 && p[0] == x
  {
    if b.stage[x] == Verdict(Aborted) {
      var p := AbortedForFailure(w, ft0, rank, b, x);
    }
    forall p | Blame(w, b, p) && |p| > 1 && p[0] == x ensures Stopped(w, b, x, |w.c.children[x]|) {
      BlameStops(w, b, p);
    }
  }

  /** With -k the process never exits. */
  lemma {:induction false} ChildrenGoOn(w: Work, b: Book, n: Node, i: nat)
    requires Whole(w, b) && n < w.c.size && i <= |w.c.children[n]| && w.c.keepgoing && !b.exited
    ensures !Children(w, b, n, i).exited
    decreases Unvisited(b), 2, |w.c.children[n]| - i
  {
    if i < |w.c.children[n]| {
      MakeGoesOn(w, b, w.c.children[n][i], n);
      ChildrenGoOn(w, Make(w, b, w.c.children[n][i], n), n, i + 1);
    }
  }

  lemma {:induction false} MakeGoesOn(w: Work, b: Book, n: Node, p: Node)
    requires Whole(w, b) && n < w.c.size && p < w.c.size && w.c.keepgoing && !b.exited
    ensures !Make(w, b, n, p).exited
    decreases Unvisited(b), 1, 0
  {
    if b.stage[n].Waiting? { ChildrenGoOn(w, Begin(w, b, n, p), n, 0); }
  }

  lemma {:induction false} RunGoesOn(w: Work, b: Book, targets: seq<Node>)
    requires Whole(w, b) && Within(targets, w.c.size) && w.c.keepgoing && !b.exited
    ensures !Targets(w, b, targets).exited
    decreases |targets|
  {
    if targets != [] {
      assert Within(targets[1..], w.c.size);
      MakeGoesOn(w, b, targets[0], targets[0]);
      RunGoesOn(w, Make(w, b, targets[0], targets[0]), targets[1..]);
    }
  }

  /** Every verdict has its reason: a node that has failed could not be made or has a command that fails,
    * and one that was made has not; and a node was aborted exactly if it leads to a failed one through
    * nodes that were aborted when they were visited for the one before.  Unless the process has exited,
    * which it never does with -k, the targets have verdicts and nothing is left half made. */
  ghost predicate Explained(w: Work, ft0: seq<int>, targets: seq<Node>, r: Book) {
    && Whole(w, r) && |ft0| == w.c.size && Within(targets, w.c.size)
    && (forall x: Node :: x < w.c.size && r.stage[x].Verdict? ==>
          && Blamed(w, ft0, r, x)
          && (r.stage[x] == Verdict(Aborted) <==> exists p :: Blame(w, r, p) && |p| > 1 && p[0] == x))
    && (!r.exited ==>
          && (forall i :: 0 <= i < |targets| ==> r.stage[targets[i]].Verdict?)
          && (forall x: Node :: x < w.c.size ==> !r.stage[x].BeingMade?))
    && (w.c.keepgoing ==> !r.exited)
  }

  /** After a run over an acyclic graph, whatever has failed, every verdict has its reason. */
  lemma WhoIsToBlame(w: Work, ft0: seq<int>, rank: seq<nat>, targets: seq<Node>)
    requires Descends(w, rank) && |ft0| == w.c.size && Within(targets, w.c.size)
    ensures Explained(w, ft0, targets, Targets(w, Fresh(w, ft0), targets))
  {
    var r := TargetsRight(w, ft0, rank, Fresh(w, ft0), targets);
    forall x: Node | x < w.c.size && r.stage[x].Verdict?
      ensures r.stage[x] == Verdict(Aborted) <==> exists p :: Blame(w, r, p) && |p| > 1 && p[0] == x
    {
      AbortedExactlyWhen(w, ft0, rank, r, x);
    }
    if w.c.keepgoing { RunGoesOn(w, Fresh(w, ft0), targets); }
  }
}
