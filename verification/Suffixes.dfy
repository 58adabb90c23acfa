/** The search for an implicit source: breadth first, over chains of suffix transformations. */
module Suffixes {
  import opened Options

  type SuffId = nat

  /** A suffix: the null suffix also stands for a file without a suffix.  The children are the
    * suffixes there is a transformation from. */
  datatype Suff = Suff(name: string, isNull: bool, children: seq<SuffId>)

  /** A step of a chain: the suffix transformed from, and whether the file has no suffix. */
  datatype Link = Link(suff: SuffId, bare: bool)

  /** What the chain starts from: a suffix of the target, and the rest of the target's name. */
  datatype Target = Target(pref: string, suff: SuffId)

  datatype Parent = Top(t: nat) | Sub(i: nat)

  /** The Src record, but for its count of children. */
  datatype Src = Src(file: string, link: Link, parent: Parent)

  predicate Known(suffs: seq<Suff>) {
    forall s, k :: 0 <= s < |suffs| && 0 <= k < |suffs[s].children| ==> suffs[s].children[k] < |suffs|
  }

  /** May the chain step from suffix s over this link? */
  predicate Steps(suffs: seq<Suff>, s: SuffId, link: Link) {
    && s < |suffs| && link.suff < |suffs| && link.suff in suffs[s].children
    && (link.bare ==> suffs[link.suff].isNull && suffs[link.suff].name != "")
  }

  predicate Follows(suffs: seq<Suff>, s: SuffId, links: seq<Link>)
    decreases |links|
  {
    links == [] || (Steps(suffs, s, links[0]) && Follows(suffs, links[0].suff, links[1..]))
  }

  function FileOf(suffs: seq<Suff>, pref: string, link: Link): string {
    if link.bare || link.suff >= |suffs| then pref else pref + suffs[link.suff].name
  }

  // --------------------------------------------------------- what a level adds

  /** The links of SuffAddSrc for one suffix. */
  function LinksOf(suffs: seq<Suff>, s: SuffId): seq<Link> {
    if s < |suffs| && suffs[s].isNull && suffs[s].name != "" then [Link(s, true), Link(s, false)] else [Link(s, false)]
  }

  /** The links of SuffAddLevel. */
  function Level(suffs: seq<Suff>, kids: seq<SuffId>): seq<Link> {
    if kids == [] then [] else Level(suffs, kids[..|kids| - 1]) + LinksOf(suffs, kids[|kids| - 1])
  }

  lemma {:induction false} LevelIsSteps(suffs: seq<Suff>, s: SuffId, kids: seq<SuffId>, link: Link)
    requires s < |suffs| && (forall k :: 0 <= k < |kids| ==> kids[k] < |suffs|)
    requires forall x :: x in kids ==> x in suffs[s].children
    ensures link in Level(suffs, kids) <==>
      link.suff in kids && (link.bare ==> suffs[link.suff].isNull && suffs[link.suff].name != "")
    decreases |kids|
  {
    if kids != [] {
      var init, last := kids[..|kids| - 1], kids[|kids| - 1];
      LevelIsSteps(suffs, s, init, link);
      assert link in Level(suffs, kids) <==> link in Level(suffs, init) || link in LinksOf(suffs, last);
      assert kids == init + [last];
    }
  }

  // ------------------------------------------------------------- the records

  /** Every record is below a target, or below an earlier record. */
  predicate Linked(targets: seq<Target>, pool: seq<Src>) {
    forall i :: 0 <= i < |pool| ==>
      match pool[i].parent
      case Top(t) => t < |targets|
      case Sub(j) => j < i
  }

  function RootOf(pool: seq<Src>, i: nat): nat
    decreases i
  {
    if i >= |pool| then 0
    else
      match pool[i].parent
      case Top(t) => t
      case Sub(j) => if j < i then RootOf(pool, j) else 0
  }

  /** The chain of transformations from the target to a record. */
  function ChainOf(pool: seq<Src>, i: nat): seq<Link>
    decreases i
  {
    if i >= |pool| then []
    else
      match pool[i].parent
      case Top(t) => [pool[i].link]
      case Sub(j) => (if j < i then ChainOf(pool, j) else []) + [pool[i].link]
  }

  /** The suffix and the prefix that a chain goes on from at p. */
  function SuffAt(targets: seq<Target>, pool: seq<Src>, p: Parent): SuffId {
    match p
    case Top(t) => if t < |targets| then targets[t].suff else 0
    case Sub(j) => if j < |pool| then pool[j].link.suff else 0
  }

  function RootAt(pool: seq<Src>, p: Parent): nat {
    match p
    case Top(t) => t
    case Sub(j) => RootOf(pool, j)
  }

  function PrefOf(targets: seq<Target>, t: nat): string {
    if t < |targets| then targets[t].pref else ""
  }

  function Rank(p: Parent): nat {
    match p
    case Top(t) => 0
    case Sub(j) => j + 1
  }

  /** Each record is the step it says it is, on the file it names. */
  predicate Sound(suffs: seq<Suff>, targets: seq<Target>, pool: seq<Src>) {
    && Known(suffs) && Linked(targets, pool)
    && (forall t :: 0 <= t < |targets| ==> targets[t].suff < |suffs|)
    && (forall i :: 0 <= i < |pool| ==>
          && Steps(suffs, SuffAt(targets, pool, pool[i].parent), pool[i].link)
          && pool[i].file == FileOf(suffs, PrefOf(targets, RootOf(pool, i)), pool[i].link))
  }

  /** The records are in the order of their parents, and only the first `head` have been expanded. */
  predicate Ordered(pool: seq<Src>, head: nat) {
    && head <= |pool|
    && (forall i, j :: 0 <= i < j < |pool| ==> Rank(pool[i].parent) <= Rank(pool[j].parent))
    && (forall i :: 0 <= i < |pool| ==> Rank(pool[i].parent) <= head)
  }

  predicate HasKid(pool: seq<Src>, p: Parent, link: Link) {
    exists j :: 0 <= j < |pool| && pool[j].parent == p && pool[j].link == link
  }

  /** The targets and the first `head` records have all their links among the records. */
  ghost predicate Expanded(suffs: seq<Suff>, targets: seq<Target>, pool: seq<Src>, head: nat) {
    && head <= |pool|
    && (forall t: nat, link :: t < |targets| && Steps(suffs, targets[t].suff, link) ==> HasKid(pool, Top(t), link))
    && (forall i: nat, link :: i < head && Steps(suffs, pool[i].link.suff, link) ==> HasKid(pool, Sub(i), link))
  }

  /** Earlier records have chains that are no longer. */
  lemma {:induction false} ShorterFirst(targets: seq<Target>, pool: seq<Src>, head: nat, i: nat, j: nat)
    requires Linked(targets, pool) && Ordered(pool, head) && i <= j < |pool|
    ensures |ChainOf(pool, i)| <= |ChainOf(pool, j)|
    decreases j
  {
    if i < j && pool[i].parent.Sub? {
      assert Rank(pool[i].parent) <= Rank(pool[j].parent);
      ShorterFirst(targets, pool, head, pool[i].parent.i, pool[j].parent.i);
    }
  }

  lemma {:induction false} FollowsAppend(suffs: seq<Suff>, s: SuffId, links: seq<Link>, link: Link)
    requires Follows(suffs, s, links) && Steps(suffs, if links == [] then s else links[|links| - 1].suff, link)
    ensures Follows(suffs, s, links + [link])
    decreases |links|
  {
    if links == [] {
      assert ([] + [link])[1..] == [];
    } else {
      assert (links + [link])[1..] == links[1..] + [link];
      FollowsAppend(suffs, links[0].suff, links[1..], link);
    }
  }

  lemma {:induction false} FollowsPrefix(suffs: seq<Suff>, s: SuffId, links: seq<Link>)
    requires Follows(suffs, s, links) && links != []
    ensures var k := |links| - 1;
      Follows(suffs, s, links[..k]) && Steps(suffs, if k == 0 then s else links[k - 1].suff, links[k])
    decreases |links|
  {
    var k := |links| - 1;
    if k > 0 {
      FollowsPrefix(suffs, links[0].suff, links[1..]);
      assert links[..k][1..] == links[1..][..k - 1];
    }
  }

  /** A record stands for a chain of defined transformations. */
  lemma {:induction false} ChainFollows(suffs: seq<Suff>, targets: seq<Target>, pool: seq<Src>, i: nat)
    requires Sound(suffs, targets, pool) && i < |pool|
    ensures RootOf(pool, i) < |targets| && ChainOf(pool, i) != [] && ChainOf(pool, i)[|ChainOf(pool, i)| - 1] == pool[i].link
    ensures Follows(suffs, targets[RootOf(pool, i)].suff, ChainOf(pool, i))
    decreases i
  {
    match pool[i].parent
    case Top(t) =>
      FollowsAppend(suffs, targets[t].suff, [], pool[i].link);
      assert [] + [pool[i].link] == ChainOf(pool, i);
    case Sub(j) =>
      ChainFollows(suffs, targets, pool, j);
      FollowsAppend(suffs, targets[RootOf(pool, i)].suff, ChainOf(pool, j), pool[i].link);
  }

  lemma {:induction false} TopRecord(suffs: seq<Suff>, targets: seq<Target>, pool: seq<Src>, head: nat, t: nat, link: Link)
    returns (i: nat)
    requires Linked(targets, pool) && Expanded(suffs, targets, pool, head)
    requires t < |targets| && Steps(suffs, targets[t].suff, link)
    ensures i < |pool| && RootOf(pool, i) == t && ChainOf(pool, i) == [link]
  {
    assert HasKid(pool, Top(t), link);
    i :| 0 <= i < |pool| && pool[i].parent == Top(t) && pool[i].link == link;
  }

  lemma {:induction false} SubRecord(suffs: seq<Suff>, targets: seq<Target>, pool: seq<Src>, head: nat, j: nat, link: Link)
    returns (i: nat)
    requires Linked(targets, pool) && Expanded(suffs, targets, pool, head)
    requires j < head && Steps(suffs, pool[j].link.suff, link)
    ensures i < |pool| && RootOf(pool, i) == RootOf(pool, j)
    ensures ChainOf(pool, i) == ChainOf(pool, j) + [link]
  {
    assert HasKid(pool, Sub(j), link);
    i :| 0 <= i < |pool| && pool[i].parent == Sub(j) && pool[i].link == link;
  }

  /** Every chain has its record, or a shorter part of it has a record that is not expanded yet. */
  lemma {:induction false} ChainHasRecord(suffs: seq<Suff>, targets: seq<Target>, pool: seq<Src>, head: nat, t: nat,
      links: seq<Link>) returns (i: nat)
    requires Linked(targets, pool) && Expanded(suffs, targets, pool, head)
    requires t < |targets| && links != [] && Follows(suffs, targets[t].suff, links)
    ensures i < |pool| && RootOf(pool, i) == t
    ensures ChainOf(pool, i) == links || (i >= head && |ChainOf(pool, i)| < |links|)
    decreases |links|
  {
    var k := |links| - 1;
    FollowsPrefix(suffs, targets[t].suff, links);
    if k == 0 {
      i := TopRecord(suffs, targets, pool, head, t, links[0]);
      assert links == [links[0]];
    } else {
      var init := links[..k];
      assert links == init + [links[k]];
      i := ChainHasRecord(suffs, targets, pool, head, t, init);
      if i < head {
        assert init[k - 1] == links[k - 1];
        i := SubRecord(suffs, targets, pool, head, i, links[k]);
      }
    }
  }

  // --------------------------------------------------------------- one level

  /** The records that SuffAddSrc makes for some links below p. */
  function Records(suffs: seq<Suff>, pref: string, p: Parent, links: seq<Link>): (r: seq<Src>)
    ensures |r| == |links|
    ensures forall k :: 0 <= k < |r| ==> r[k] == Src(FileOf(suffs, pref, links[k]), links[k], p)
  {
    seq(|links|, k requires 0 <= k < |links| => Src(FileOf(suffs, pref, links[k]), links[k], p))
  }

  /** The number of records below p. */
  function Kids(pool: seq<Src>, p: Parent): nat {
    if pool == [] then 0
    else Kids(pool[..|pool| - 1], p) + if pool[|pool| - 1].parent == p then 1 else 0
  }

  lemma {:induction false} KidsAppend(pool: seq<Src>, r: Src, p: Parent)
    ensures Kids(pool + [r], p) == Kids(pool, p) + if r.parent == p then 1 else 0
  {
    assert (pool + [r])[..|pool|] == pool;
  }

  /** The counts of children are right. */
  predicate Counted(targets: seq<Target>, pool: seq<Src>, kids: seq<nat>, topKids: seq<nat>) {
    && |kids| == |pool| && (forall i :: 0 <= i < |pool| ==> kids[i] == Kids(pool, Sub(i)))
    && |topKids| == |targets| && (forall t :: 0 <= t < |targets| ==> topKids[t] == Kids(pool, Top(t)))
  }

  /** The parent of a new record counts it, and the record itself has no children. */
  function KidsAfter(kids: seq<nat>, p: Parent): seq<nat>
    requires p.Sub? ==> p.i < |kids|
  {
    (if p.Sub? then kids[p.i := kids[p.i] + 1] else kids) + [0]
  }

  function TopKidsAfter(topKids: seq<nat>, p: Parent): seq<nat>
    requires p.Top? ==> p.t < |topKids|
  {
    if p.Top? then topKids[p.t := topKids[p.t] + 1] else topKids
  }

  lemma {:induction false} NoKidsYet(targets: seq<Target>, pool: seq<Src>, i: nat)
    requires Linked(targets, pool) && i >= |pool|
    ensures Kids(pool, Sub(i)) == 0
    decreases |pool|
  {
    if pool != [] {
      assert Linked(targets, pool[..|pool| - 1]);
      NoKidsYet(targets, pool[..|pool| - 1], i);
    }
  }

  lemma {:induction false} CountedGrows(targets: seq<Target>, pool: seq<Src>, kids: seq<nat>, topKids: seq<nat>, r: Src)
    requires Linked(targets, pool) && Counted(targets, pool, kids, topKids) && Below(targets, pool, r.parent)
    ensures Counted(targets, pool + [r], KidsAfter(kids, r.parent), TopKidsAfter(topKids, r.parent))
  {
    NoKidsYet(targets, pool, |pool|);
    forall p: Parent ensures Kids(pool + [r], p) == Kids(pool, p) + if r.parent == p then 1 else 0 {
      KidsAppend(pool, r, p);
    }
  }

  /** A longer pool has the same chains for the records it had. */
  lemma {:induction false} ChainKept(targets: seq<Target>, pool: seq<Src>, more: seq<Src>, i: nat)
    requires Linked(targets, pool) && Linked(targets, pool + more) && i < |pool|
    ensures RootOf(pool + more, i) == RootOf(pool, i)
    ensures ChainOf(pool + more, i) == ChainOf(pool, i)
    decreases i
  {
    assert (pool + more)[i] == pool[i];
    if pool[i].parent.Sub? { ChainKept(targets, pool, more, pool[i].parent.i); }
  }

  predicate Below(targets: seq<Target>, pool: seq<Src>, p: Parent) {
    match p
    case Top(t) => t < |targets|
    case Sub(j) => j < |pool|
  }

  /** New records below p are sound if their links are steps from it. */
  lemma {:induction false} SoundGrows(suffs: seq<Suff>, targets: seq<Target>, pool: seq<Src>, p: Parent, links: seq<Link>)
    requires Sound(suffs, targets, pool) && Below(targets, pool, p)
    requires forall k :: 0 <= k < |links| ==> Steps(suffs, SuffAt(targets, pool, p), links[k])
    ensures Sound(suffs, targets, pool + Records(suffs, PrefOf(targets, RootAt(pool, p)), p, links))
  {
    var more := Records(suffs, PrefOf(targets, RootAt(pool, p)), p, links);
    var all := pool + more;
    assert Linked(targets, all) by {
      forall i | 0 <= i < |all| ensures match all[i].parent case Top(t) => t < |targets| case Sub(j) => j < i {
        if i >= |pool| { assert all[i] == more[i - |pool|]; }
      }
    }
    forall i | 0 <= i < |all|
      ensures Steps(suffs, SuffAt(targets, all, all[i].parent), all[i].link)
      ensures all[i].file == FileOf(suffs, PrefOf(targets, RootOf(all, i)), all[i].link)
    {
      if i < |pool| {
        ChainKept(targets, pool, more, i);
        assert all[i] == pool[i];
      } else {
        assert all[i] == more[i - |pool|];
        if p.Sub? { ChainKept(targets, pool, more, p.i); }
      }
    }
  }

  lemma {:induction false} SoundOneMore(suffs: seq<Suff>, targets: seq<Target>, pool: seq<Src>, r: Src)
    requires Sound(suffs, targets, pool) && Below(targets, pool, r.parent)
    requires Steps(suffs, SuffAt(targets, pool, r.parent), r.link)
    requires r.file == FileOf(suffs, PrefOf(targets, RootAt(pool, r.parent)), r.link)
    ensures var all := pool + [r];
      && Sound(suffs, targets, all) && Below(targets, all, r.parent)
      && SuffAt(targets, all, r.parent) == SuffAt(targets, pool, r.parent)
      && RootAt(all, r.parent) == RootAt(pool, r.parent)
  {
    var pref := PrefOf(targets, RootAt(pool, r.parent));
    SoundGrows(suffs, targets, pool, r.parent, [r.link]);
    assert Records(suffs, pref, r.parent, [r.link]) == [r];
    if r.parent.Sub? { ChainKept(targets, pool, [r], r.parent.i); }
  }

  /** The records for the next record to be expanded. */
  function Expansion(suffs: seq<Suff>, pool: seq<Src>, head: nat, pref: string): seq<Src>
    requires head < |pool|
  {
    var s := pool[head].link.suff;
    Records(suffs, pref, Sub(head), if s < |suffs| then Level(suffs, suffs[s].children) else [])
  }

  lemma {:induction false} ExpansionIsOrdered(suffs: seq<Suff>, pool: seq<Src>, head: nat, pref: string)
    requires Known(suffs) && Ordered(pool, head) && head < |pool| && pool[head].link.suff < |suffs|
    ensures Ordered(pool + Expansion(suffs, pool, head, pref), head + 1)
  {
  }

  lemma {:induction false} ExpansionHasKids(suffs: seq<Suff>, pool: seq<Src>, head: nat, pref: string, link: Link)
    requires Known(suffs) && head < |pool| && pool[head].link.suff < |suffs|
    requires Steps(suffs, pool[head].link.suff, link)
    ensures HasKid(pool + Expansion(suffs, pool, head, pref), Sub(head), link)
  {
    var s := pool[head].link.suff;
    var links, more := Level(suffs, suffs[s].children), Expansion(suffs, pool, head, pref);
    LevelIsSteps(suffs, s, suffs[s].children, link);
    var k :| 0 <= k < |links| && links[k] == link;
    assert (pool + more)[|pool| + k] == more[k];
  }

  /** Expanding the next record completes its links. */
  lemma {:induction false} ExpansionExpands(suffs: seq<Suff>, targets: seq<Target>, pool: seq<Src>, head: nat, pref: string)
    requires Known(suffs) && head < |pool| && pool[head].link.suff < |suffs| && Expanded(suffs, targets, pool, head)
    ensures Expanded(suffs, targets, pool + Expansion(suffs, pool, head, pref), head + 1)
  {
    var more := Expansion(suffs, pool, head, pref);
    var all := pool + more;
    forall t: nat, link | t < |targets| && Steps(suffs, targets[t].suff, link) ensures HasKid(all, Top(t), link) {
      KidKept(pool, more, Top(t), link);
    }
    forall i: nat, link | i < head + 1 && Steps(suffs, all[i].link.suff, link) ensures HasKid(all, Sub(i), link) {
      assert all[i] == pool[i];
      if i < head {
        KidKept(pool, more, Sub(i), link);
      } else {
        ExpansionHasKids(suffs, pool, head, pref, link);
      }
    }
  }

  lemma {:induction false} KidKept(pool: seq<Src>, more: seq<Src>, p: Parent, link: Link)
    requires HasKid(pool, p, link)
    ensures HasKid(pool + more, p, link)
  {
    var j :| 0 <= j < |pool| && pool[j].parent == p && pool[j].link == link;
    assert (pool + more)[j] == pool[j];
  }

  // ------------------------------------------------------------- the search

  /** A chain that leads from target t to a file that exists. */
  ghost predicate Reaches(suffs: seq<Suff>, targets: seq<Target>, present: (string, SuffId) -> bool, t: nat, links: seq<Link>) {
    && t < |targets| && links != [] && Follows(suffs, targets[t].suff, links)
    && var last := links[|links| - 1];
       present(FileOf(suffs, targets[t].pref, last), last.suff)
  }

  /** A chain of no more than so many transformations reaches a file; or there is no longer chain at all. */
  ghost predicate Bounded(suffs: seq<Suff>, targets: seq<Target>, present: (string, SuffId) -> bool, bound: nat) {
    || (exists t, links :: Reaches(suffs, targets, present, t, links) && |links| <= bound)
    || (forall t, links :: 0 <= t < |targets| && Follows(suffs, targets[t].suff, links) ==> |links| <= bound)
  }

  /** How long a search can take below a suffix, over chains of d more transformations. */
  ghost function Effort(suffs: seq<Suff>, s: SuffId, d: nat): (e: nat)
    requires Known(suffs) && s < |suffs|
    ensures e >= 1
    decreases d, 1, 0
  {
    if d == 0 then 1 else 1 + EffortOfKids(suffs, s, d - 1, |suffs[s].children|)
  }

  ghost function EffortOfKids(suffs: seq<Suff>, s: SuffId, d: nat, k: nat): nat
    requires Known(suffs) && s < |suffs| && k <= |suffs[s].children|
    decreases d, 2, k
  {
    if k == 0 then 0
    else EffortOfKids(suffs, s, d, k - 1) + 2 * Effort(suffs, suffs[s].children[k - 1], d)
  }

  predicate InSuffs(suffs: seq<Suff>, links: seq<Link>) {
    forall i :: 0 <= i < |links| ==> links[i].suff < |suffs|
  }

  ghost function EffortOf(suffs: seq<Suff>, links: seq<Link>, d: nat): nat
    requires Known(suffs) && InSuffs(suffs, links)
  {
    if links == [] then 0 else Effort(suffs, links[0].suff, d) + EffortOf(suffs, links[1..], d)
  }

  /** The work that is left when the first `head` records have been looked at: chains are followed up to
    * a bound. */
  ghost function WorkLeft(suffs: seq<Suff>, bound: nat, pool: seq<Src>, head: nat): nat
    requires Known(suffs)
    decreases |pool| - head
  {
    if head >= |pool| then 0 else Work(suffs, bound, pool, head) + WorkLeft(suffs, bound, pool, head + 1)
  }

  ghost function Work(suffs: seq<Suff>, bound: nat, pool: seq<Src>, i: nat): nat
    requires Known(suffs) && i < |pool|
  {
    var len := |ChainOf(pool, i)|;
    if pool[i].link.suff < |suffs| && len <= bound then Effort(suffs, pool[i].link.suff, bound - len) else 0
  }

  lemma {:induction false} EffortAppend(suffs: seq<Suff>, a: seq<Link>, b: seq<Link>, d: nat)
    requires Known(suffs) && InSuffs(suffs, a) && InSuffs(suffs, b)
    ensures InSuffs(suffs, a + b) && EffortOf(suffs, a + b, d) == EffortOf(suffs, a, d) + EffortOf(suffs, b, d)
  {
    if a == [] {
      assert a + b == b;
    } else {
      EffortAppend(suffs, a[1..], b, d);
      assert (a + b)[1..] == a[1..] + b;
    }
  }

  lemma {:induction false} EffortOfSuffix(suffs: seq<Suff>, s: SuffId, d: nat)
    requires Known(suffs) && s < |suffs|
    ensures var links := LinksOf(suffs, s); InSuffs(suffs, links) && EffortOf(suffs, links, d) <= 2 * Effort(suffs, s, d)
  {
    var links := LinksOf(suffs, s);
    if |links| == 2 {
      assert links[1..] == [links[1]] && [links[1]][1..] == [];
      assert EffortOf(suffs, [links[1]], d) == Effort(suffs, s, d);
    } else {
      assert links[1..] == [];
    }
  }

  lemma {:induction false} EffortOfLevel(suffs: seq<Suff>, s: SuffId, d: nat, k: nat)
    requires Known(suffs) && s < |suffs| && k <= |suffs[s].children|
    ensures var links := Level(suffs, suffs[s].children[..k]);
      InSuffs(suffs, links) && EffortOf(suffs, links, d) <= EffortOfKids(suffs, s, d, k)
  {
    if k > 0 {
      var kids := suffs[s].children;
      EffortOfLevel(suffs, s, d, k - 1);
      EffortOfSuffix(suffs, kids[k - 1], d);
      assert kids[..k][..k - 1] == kids[..k - 1];
      EffortAppend(suffs, Level(suffs, kids[..k - 1]), LinksOf(suffs, kids[k - 1]), d);
    }
  }

  /** New records leave the work for the old ones as it was. */
  lemma {:induction false} WorkOfMore(suffs: seq<Suff>, targets: seq<Target>, bound: nat, pool: seq<Src>, more: seq<Src>, i: nat)
    requires Known(suffs) && Linked(targets, pool) && Linked(targets, pool + more) && i <= |pool|
    ensures WorkLeft(suffs, bound, pool + more, i)
         == WorkLeft(suffs, bound, pool, i) + WorkLeft(suffs, bound, pool + more, |pool|)
    decreases |pool| - i
  {
    if i < |pool| {
      WorkOfMore(suffs, targets, bound, pool, more, i + 1);
      ChainKept(targets, pool, more, i);
      assert (pool + more)[i] == pool[i];
    }
  }

  /** The work for the records below the head. */
  lemma {:induction false} WorkOfLevel(suffs: seq<Suff>, targets: seq<Target>, bound: nat, pool: seq<Src>, head: nat, pref: string,
      links: seq<Link>, k: nat)
    requires Known(suffs) && Linked(targets, pool) && head < |pool| && InSuffs(suffs, links) && k <= |links|
    requires Linked(targets, pool + Records(suffs, pref, Sub(head), links))
    ensures var all, len := pool + Records(suffs, pref, Sub(head), links), |ChainOf(pool, head)| + 1;
      && InSuffs(suffs, links[k..])
      && WorkLeft(suffs, bound, all, |pool| + k) == if len <= bound then EffortOf(suffs, links[k..], bound - len) else 0
    decreases |links| - k
  {
    var more := Records(suffs, pref, Sub(head), links);
    if k < |links| {
      WorkOfLevel(suffs, targets, bound, pool, head, pref, links, k + 1);
      assert (pool + more)[|pool| + k] == more[k];
      ChainKept(targets, pool, more, head);
      assert links[k..][1..] == links[k + 1..];
    }
  }

  /** The work that is left goes down when the first record of the queue gives way to its level. */
  lemma {:induction false} EffortGoesDown(suffs: seq<Suff>, targets: seq<Target>, bound: nat, pool: seq<Src>, head: nat, pref: string)
    requires Known(suffs) && Linked(targets, pool) && head < |pool| && pool[head].link.suff < |suffs|
    requires |ChainOf(pool, head)| <= bound && Linked(targets, pool + Expansion(suffs, pool, head, pref))
    ensures var all := pool + Expansion(suffs, pool, head, pref);
      WorkLeft(suffs, bound, all, head + 1) < WorkLeft(suffs, bound, pool, head)
  {
    WorkOfMore(suffs, targets, bound, pool, Expansion(suffs, pool, head, pref), head + 1);
    WorkOfExpansion(suffs, targets, bound, pool, head, pref);
  }

  lemma {:induction false} EffortOfAll(suffs: seq<Suff>, s: SuffId, d: nat)
    requires Known(suffs) && s < |suffs|
    ensures var links := Level(suffs, suffs[s].children);
      InSuffs(suffs, links) && (d > 0 ==> EffortOf(suffs, links, d - 1) < Effort(suffs, s, d))
  {
    var kids := suffs[s].children;
    assert kids[..|kids|] == kids;
    EffortOfLevel(suffs, s, if d > 0 then d - 1 else 0, |kids|);
  }

  lemma WorkBelow(suffs: seq<Suff>, targets: seq<Target>, bound: nat, pool: seq<Src>, head: nat, pref: string, links: seq<Link>)
    requires Known(suffs) && Linked(targets, pool) && head < |pool| && pool[head].link.suff < |suffs| && InSuffs(suffs, links)
    requires Linked(targets, pool + Records(suffs, pref, Sub(head), links))
    requires var len := |ChainOf(pool, head)|;
      len <= bound && (len < bound ==> EffortOf(suffs, links, bound - len - 1) < Effort(suffs, pool[head].link.suff, bound - len))
    ensures WorkLeft(suffs, bound, pool + Records(suffs, pref, Sub(head), links), |pool|) < Work(suffs, bound, pool, head)
  {
    WorkOfLevel(suffs, targets, bound, pool, head, pref, links, 0);
    assert links[0..] == links;
  }

  lemma WorkOfExpansion(suffs: seq<Suff>, targets: seq<Target>, bound: nat, pool: seq<Src>, head: nat, pref: string)
    requires Known(suffs) && Linked(targets, pool) && head < |pool| && pool[head].link.suff < |suffs|
    requires |ChainOf(pool, head)| <= bound && Linked(targets, pool + Expansion(suffs, pool, head, pref))
    ensures WorkLeft(suffs, bound, pool + Expansion(suffs, pool, head, pref), |pool|) < Work(suffs, bound, pool, head)
  {
    var s := pool[head].link.suff;
    EffortOfAll(suffs, s, bound - |ChainOf(pool, head)|);
    WorkBelow(suffs, targets, bound, pool, head, pref, Level(suffs, suffs[s].children));
  }

  /** What the search is about: no record that has been looked at exists, and all that can be
    * stepped to from them has a record. */
  ghost predicate Frontier(suffs: seq<Suff>, targets: seq<Target>, present: (string, SuffId) -> bool, pool: seq<Src>, head: nat) {
    && Sound(suffs, targets, pool) && Ordered(pool, head) && Expanded(suffs, targets, pool, head)
    && (forall i :: 0 <= i < head ==> !present(pool[i].file, pool[i].link.suff))
  }

  lemma SuffIsKnown(suffs: seq<Suff>, targets: seq<Target>, pool: seq<Src>, i: nat)
    requires Sound(suffs, targets, pool) && i < |pool|
    ensures pool[i].link.suff < |suffs|
  {
    assert Steps(suffs, SuffAt(targets, pool, pool[i].parent), pool[i].link);
  }

  lemma {:induction false} FrontierMoves(suffs: seq<Suff>, targets: seq<Target>, present: (string, SuffId) -> bool,
      pool: seq<Src>, head: nat, pref: string)
    requires Frontier(suffs, targets, present, pool, head) && head < |pool|
    requires !present(pool[head].file, pool[head].link.suff)
    requires pref == PrefOf(targets, RootOf(pool, head))
    ensures pool[head].link.suff < |suffs| && Frontier(suffs, targets, present, pool + Expansion(suffs, pool, head, pref), head + 1)
  {
    SuffIsKnown(suffs, targets, pool, head);
    ExpansionIsOrdered(suffs, pool, head, pref);
    ExpansionExpands(suffs, targets, pool, head, pref);
    ExpansionIsSound(suffs, targets, pool, head, pref);
  }

  lemma {:induction false} ExpansionIsSound(suffs: seq<Suff>, targets: seq<Target>, pool: seq<Src>, head: nat, pref: string)
    requires Sound(suffs, targets, pool) && head < |pool| && pool[head].link.suff < |suffs|
    requires pref == PrefOf(targets, RootOf(pool, head))
    ensures Sound(suffs, targets, pool + Expansion(suffs, pool, head, pref))
  {
    var s := pool[head].link.suff;
    var links := Level(suffs, suffs[s].children);
    forall k | 0 <= k < |links| ensures Steps(suffs, s, links[k]) {
      LevelIsSteps(suffs, s, suffs[s].children, links[k]);
    }
    SoundGrows(suffs, targets, pool, Sub(head), links);
  }

  /** Some targets have all their links among the records, and nothing has been expanded. */
  ghost predicate TopsExpanded(suffs: seq<Suff>, targets: seq<Target>, pool: seq<Src>) {
    && (forall i :: 0 <= i < |pool| ==> pool[i].parent.Top?)
    && (forall t: nat, link :: t < |targets| && Steps(suffs, targets[t].suff, link) ==> HasKid(pool, Top(t), link))
  }

  lemma {:induction false} TopExpands(suffs: seq<Suff>, targets: seq<Target>, t: nat, pool: seq<Src>)
    requires Known(suffs) && t < |targets| && targets[t].suff < |suffs| && TopsExpanded(suffs, targets[..t], pool)
    ensures TopsExpanded(suffs, targets[..t + 1],
      pool + Records(suffs, targets[t].pref, Top(t), Level(suffs, suffs[targets[t].suff].children)))
  {
    var s := targets[t].suff;
    var links := Level(suffs, suffs[s].children);
    var more := Records(suffs, targets[t].pref, Top(t), links);
    forall u: nat, link | u < t + 1 && Steps(suffs, targets[..t + 1][u].suff, link)
      ensures HasKid(pool + more, Top(u), link)
    {
      if u < t {
        assert targets[..t][u] == targets[u];
        KidKept(pool, more, Top(u), link);
      } else {
        LevelIsSteps(suffs, s, suffs[s].children, link);
        var k :| 0 <= k < |links| && links[k] == link;
        assert (pool + more)[|pool| + k] == more[k];
      }
    }
  }

  /** A chain that reaches a file is at least as long as that of the first record not yet looked at. */
  lemma {:induction false} NoShorter(suffs: seq<Suff>, targets: seq<Target>, present: (string, SuffId) -> bool,
      pool: seq<Src>, head: nat, t: nat, links: seq<Link>)
    requires Frontier(suffs, targets, present, pool, head) && Reaches(suffs, targets, present, t, links)
    ensures head < |pool| && |links| >= |ChainOf(pool, head)|
  {
    var i := ChainHasRecord(suffs, targets, pool, head, t, links);
    assert ChainOf(pool, i) == links ==> pool[i].link == links[|links| - 1];
    ShorterFirst(targets, pool, head, head, i);
  }

  /** Within the bound, no chain that is followed is longer. */
  lemma {:induction false} HeadIsBounded(suffs: seq<Suff>, targets: seq<Target>, present: (string, SuffId) -> bool,
      pool: seq<Src>, head: nat, bound: nat)
    requires Frontier(suffs, targets, present, pool, head) && head < |pool| && Bounded(suffs, targets, present, bound)
    ensures |ChainOf(pool, head)| <= bound
  {
    if t, links :| Reaches(suffs, targets, present, t, links) && |links| <= bound {
      NoShorter(suffs, targets, present, pool, head, t, links);
    } else {
      ChainFollows(suffs, targets, pool, head);
    }
  }

  /** If there is no bound, the search does not end: there is always a first record of the queue, and it
    * does not exist. */
  lemma {:induction false} SearchGoesOn(suffs: seq<Suff>, targets: seq<Target>, present: (string, SuffId) -> bool,
      pool: seq<Src>, head: nat)
    requires Frontier(suffs, targets, present, pool, head)
    requires forall bound: nat :: !Bounded(suffs, targets, present, bound)
    ensures head < |pool| && !present(pool[head].file, pool[head].link.suff)
  {
    assert !Bounded(suffs, targets, present, |pool|);
    var t, links :| 0 <= t < |targets| && Follows(suffs, targets[t].suff, links) && |links| > |pool|;
    var i := ChainHasRecord(suffs, targets, pool, head, t, links);
    ChainIsShort(targets, pool, i);
    if present(pool[head].file, pool[head].link.suff) {
      ChainFollows(suffs, targets, pool, head);
      assert Reaches(suffs, targets, present, RootOf(pool, head), ChainOf(pool, head));
      assert Bounded(suffs, targets, present, |ChainOf(pool, head)|);
    }
  }

  lemma {:induction false} ChainIsShort(targets: seq<Target>, pool: seq<Src>, i: nat)
    requires Linked(targets, pool) && i < |pool|
    ensures |ChainOf(pool, i)| <= i + 1
    decreases i
  {
    if pool[i].parent.Sub? { ChainIsShort(targets, pool, pool[i].parent.i); }
  }

  /** Every transformation goes down in rank. */
  ghost predicate Ranked(suffs: seq<Suff>, rank: seq<nat>) {
    && |rank| == |suffs| && Known(suffs)
    && (forall s, k :: 0 <= s < |suffs| && 0 <= k < |suffs[s].children| ==> rank[suffs[s].children[k]] < rank[s])
  }

  lemma {:induction false} ChainGoesDown(suffs: seq<Suff>, rank: seq<nat>, s: SuffId, links: seq<Link>)
    requires Ranked(suffs, rank) && s < |suffs| && Follows(suffs, s, links)
    ensures |links| <= rank[s]
    decreases |links|
  {
    if links != [] {
      var k :| 0 <= k < |suffs[s].children| && suffs[s].children[k] == links[0].suff;
      ChainGoesDown(suffs, rank, links[0].suff, links[1..]);
    }
  }

  /** Transformations without a cycle are bounded. */
  lemma RankedIsBounded(suffs: seq<Suff>, rank: seq<nat>, targets: seq<Target>, present: (string, SuffId) -> bool, bound: nat)
    requires Ranked(suffs, rank) && forall t :: 0 <= t < |targets| ==> targets[t].suff < |suffs| && rank[targets[t].suff] <= bound
    ensures Bounded(suffs, targets, present, bound)
  {
    forall t, links | 0 <= t < |targets| && Follows(suffs, targets[t].suff, links) ensures |links| <= bound {
      ChainGoesDown(suffs, rank, targets[t].suff, links);
    }
  }

  /** The answer of the search: the record at the end of a shortest chain to a file that exists, or
    * None if there is no such chain. */
  ghost predicate Answers(suffs: seq<Suff>, targets: seq<Target>, present: (string, SuffId) -> bool, pool: seq<Src>,
      bottom: Option<nat>)
  {
    match bottom
    case None => forall t, links :: !Reaches(suffs, targets, present, t, links)
    case Some(i) =>
      && i < |pool| && Linked(targets, pool)
      && Reaches(suffs, targets, present, RootOf(pool, i), ChainOf(pool, i))
      && forall t, links :: Reaches(suffs, targets, present, t, links) ==> |links| >= |ChainOf(pool, i)|
  }

  /** The first record of the queue exists: it is the end of a shortest chain. */
  lemma {:induction false} FoundShortest(suffs: seq<Suff>, targets: seq<Target>, present: (string, SuffId) -> bool,
      pool: seq<Src>, head: nat)
    requires Frontier(suffs, targets, present, pool, head) && head < |pool|
    requires present(pool[head].file, pool[head].link.suff)
    ensures Answers(suffs, targets, present, pool, Some(head))
  {
    ChainFollows(suffs, targets, pool, head);
    assert Reaches(suffs, targets, present, RootOf(pool, head), ChainOf(pool, head));
    forall t, links | Reaches(suffs, targets, present, t, links) ensures |links| >= |ChainOf(pool, head)| {
      NoShorter(suffs, targets, present, pool, head, t, links);
    }
  }

  lemma {:induction false} FoundNone(suffs: seq<Suff>, targets: seq<Target>, present: (string, SuffId) -> bool, pool: seq<Src>)
    requires Frontier(suffs, targets, present, pool, |pool|)
    ensures Answers(suffs, targets, present, pool, None)
  {
    forall t, links ensures !Reaches(suffs, targets, present, t, links) {
      if Reaches(suffs, targets, present, t, links) { NoShorter(suffs, targets, present, pool, |pool|, t, links); }
    }
  }

  /** The numbers from a up to b. */
  function Numbers(a: nat, b: nat): (r: seq<nat>)
    requires a <= b
    ensures |r| == b - a && forall k :: 0 <= k < |r| ==> r[k] == a + k
  {
    seq(b - a, k requires 0 <= k < b - a => a + k)
  }

  lemma {:induction false} NumbersAppend(a: nat, b: nat, c: nat)
    requires a <= b <= c
    ensures Numbers(a, b) + Numbers(b, c) == Numbers(a, c)
  {
  }

  lemma {:induction false} NumbersTail(a: nat, b: nat, k: nat)
    requires a < b
    ensures Numbers(a, b)[0] == a && Numbers(a, b)[1..] + Numbers(b, b + k) == Numbers(a + 1, b + k)
  {
  }

  lemma {:induction false} RecordsAppend(suffs: seq<Suff>, pref: string, p: Parent, a: seq<Link>, b: seq<Link>)
    ensures Records(suffs, pref, p, a + b) == Records(suffs, pref, p, a) + Records(suffs, pref, p, b)
  {
  }

  lemma {:induction false} RecordsOfSuffix(suffs: seq<Suff>, pref: string, p: Parent, s: SuffId, pool: seq<Src>, srcs: seq<nat>)
    requires s < |suffs|
    ensures var first, second := Link(s, true), Link(s, false);
      var a, b := Src(FileOf(suffs, pref, first), first, p), Src(FileOf(suffs, pref, second), second, p);
      var n := |pool|;
      if suffs[s].isNull && suffs[s].name != "" then
        && pool + [a] + [b] == pool + Records(suffs, pref, p, LinksOf(suffs, s))
        && srcs + [n] + [n + 1] == srcs + Numbers(n, n + |LinksOf(suffs, s)|)
      else
        && pool + [b] == pool + Records(suffs, pref, p, LinksOf(suffs, s))
        && srcs + [n] == srcs + Numbers(n, n + |LinksOf(suffs, s)|)
  {
  }

  /** The records for the first suffixes of a level have been added, and queued. */
  predicate Added(suffs: seq<Suff>, pref: string, p: Parent, kids: seq<SuffId>, before: seq<Src>, pool: seq<Src>,
      queue: seq<nat>, srcs: seq<nat>)
  {
    && (forall i :: 0 <= i < |kids| ==> kids[i] < |suffs|)
    && pool == before + Records(suffs, pref, p, Level(suffs, kids))
    && srcs == queue + Numbers(|before|, |before| + |Level(suffs, kids)|)
  }

  lemma {:induction false} AddedNothing(suffs: seq<Suff>, pref: string, p: Parent, kids: seq<SuffId>, pool: seq<Src>, srcs: seq<nat>)
    ensures Added(suffs, pref, p, kids[..0], pool, pool, srcs, srcs)
  {
    assert Records(suffs, pref, p, []) == [] && pool + [] == pool && srcs + [] == srcs;
  }

  lemma {:induction false} AddedMore(suffs: seq<Suff>, pref: string, p: Parent, kids: seq<SuffId>, k: nat, before: seq<Src>,
      pool: seq<Src>, queue: seq<nat>, srcs: seq<nat>)
    requires k < |kids| && kids[k] < |suffs| && Added(suffs, pref, p, kids[..k], before, pool, queue, srcs)
    ensures Added(suffs, pref, p, kids[..k + 1], before, pool + Records(suffs, pref, p, LinksOf(suffs, kids[k])),
      queue, srcs + Numbers(|pool|, |pool| + |LinksOf(suffs, kids[k])|))
  {
    assert kids[..k + 1][..k] == kids[..k];
    var a, b, n := Level(suffs, kids[..k]), LinksOf(suffs, kids[k]), |before|;
    RecordsAppend(suffs, pref, p, a, b);
    AppendThrice(before, Records(suffs, pref, p, a), Records(suffs, pref, p, b));
    NumbersAppend(n, n + |a|, n + |a + b|);
    AppendThrice(queue, Numbers(n, n + |a|), Numbers(n + |a|, n + |a + b|));
  }

  lemma {:induction false} AppendThrice<T>(a: seq<T>, b: seq<T>, c: seq<T>)
    ensures a + b + c == a + (b + c)
  {
  }

  class Finder {
    const suffs: seq<Suff>
    const targets: seq<Target>
    const present: (string, SuffId) -> bool   // is there a node for the file, or the file on the suffix's path?

    var pool: seq<Src>           // all records, in the order in which they were made
    var kids: seq<nat>           // their counts of children
    var topKids: seq<nat>        // the targets' counts of children
    var srcs: seq<nat>           // the work queue

    ghost predicate Valid()
      reads this
    {
      Sound(suffs, targets, pool) && Counted(targets, pool, kids, topKids)
    }

    /** The queue holds the records that have not been looked at yet, in order. */
    ghost predicate Queued(head: nat)
      reads this
    {
      head + |srcs| == |pool| && forall k :: 0 <= k < |srcs| ==> srcs[k] == head + k
    }

    /** The constructor of a search for some possible suffixes of the target's name. */
    constructor (suffs: seq<Suff>, targets: seq<Target>, present: (string, SuffId) -> bool)
      requires Known(suffs) && forall t :: 0 <= t < |targets| ==> targets[t].suff < |suffs|
      ensures this.suffs == suffs && this.targets == targets && this.present == present
      ensures Valid() && pool == [] && srcs == []
    {
      this.suffs, this.targets, this.present := suffs, targets, present;
      pool, kids, topKids, srcs := [], [], seq(|targets|, _ => 0), [];
    }

    /** The record that SuffAddSrc puts at the end of the list. */
    method NewSrc(link: Link, p: Parent, pref: string)
      requires Valid() && Below(targets, pool, p) && Steps(suffs, SuffAt(targets, pool, p), link)
      requires pref == PrefOf(targets, RootAt(pool, p))
      modifies `pool, `kids, `topKids, `srcs
      ensures Valid() && Below(targets, pool, p) && SuffAt(targets, pool, p) == old(SuffAt(targets, pool, p))
      ensures pref == PrefOf(targets, RootAt(pool, p))
      ensures pool == old(pool) + [Src(FileOf(suffs, pref, link), link, p)] && srcs == old(srcs) + [old(|pool|)]
    {
      var s2 := Src(if link.bare then pref else pref + suffs[link.suff].name, link, p);
      SoundOneMore(suffs, targets, pool, s2);
      CountedGrows(targets, pool, kids, topKids, s2);
      kids, topKids := KidsAfter(kids, p), TopKidsAfter(topKids, p);
      srcs := srcs + [|pool|];
      pool := pool + [s2];
    }

    /** p stands for suffix s and prefix pref. */
    ghost predicate Here(p: Parent, s: SuffId, pref: string)
      reads this
    {
      && Valid() && Below(targets, pool, p) && SuffAt(targets, pool, p) == s < |suffs|
      && PrefOf(targets, RootAt(pool, p)) == pref
    }

    /** SuffAddSrc: the null suffix also gives a record for a file without a suffix. */
    method AddSrc(s: SuffId, p: Parent, ghost from: SuffId, pref: string)
      requires Here(p, from, pref) && s < |suffs| && s in suffs[from].children
      modifies `pool, `kids, `topKids, `srcs
      ensures Here(p, from, pref)
      ensures pool == old(pool) + Records(suffs, pref, p, LinksOf(suffs, s))
      ensures srcs == old(srcs) + Numbers(old(|pool|), old(|pool|) + |LinksOf(suffs, s)|)
    {
      RecordsOfSuffix(suffs, pref, p, s, pool, srcs);
      if suffs[s].isNull && suffs[s].name != "" { NewSrc(Link(s, true), p, pref); }
      NewSrc(Link(s, false), p, pref);
    }

    /** The turn of SuffAddLevel for the k-th child. */
    method AddChild(k: nat, p: Parent, s: SuffId, pref: string, ghost before: seq<Src>, ghost queue: seq<nat>)
      requires Here(p, s, pref) && k < |suffs[s].children|
      requires Added(suffs, pref, p, suffs[s].children[..k], before, pool, queue, srcs)
      modifies `pool, `kids, `topKids, `srcs
      ensures Here(p, s, pref) && Added(suffs, pref, p, suffs[s].children[..k + 1], before, pool, queue, srcs)
    {
      AddedMore(suffs, pref, p, suffs[s].children, k, before, pool, queue, srcs);
      AddSrc(suffs[s].children[k], p, s, pref);
    }

    /** SuffAddLevel: all the children of the suffix of p. */
    method AddLevel(p: Parent, s: SuffId, pref: string)
      requires Here(p, s, pref)
      modifies `pool, `kids, `topKids, `srcs
      ensures Here(p, s, pref)
      ensures Added(suffs, pref, p, suffs[s].children, old(pool), pool, old(srcs), srcs)
    {
      ghost var before, queue := pool, srcs;
      var k := 0;
      AddedNothing(suffs, pref, p, suffs[s].children, before, queue);
      while k < |suffs[s].children|
        invariant 0 <= k <= |suffs[s].children| && Here(p, s, pref)
        invariant Added(suffs, pref, p, suffs[s].children[..k], before, pool, queue, srcs)
      {
        AddChild(k, p, s, pref, before, queue);
        k := k + 1;
      }
      assert suffs[s].children[..k] == suffs[s].children;
    }

    ghost predicate Searching(head: nat)
      reads this
    {
      Valid() && Frontier(suffs, targets, present, pool, head) && srcs == Numbers(head, |pool|)
    }

    /** The first record of the queue gives way to its level. */
    method Grow(head: nat, pref: string)
      requires Valid() && head < |pool| && pool[head].link.suff < |suffs| && srcs == Numbers(head, |pool|)
      requires pref == PrefOf(targets, RootOf(pool, head))
      modifies `pool, `kids, `topKids, `srcs
      ensures Valid() && pool == old(pool) + Expansion(suffs, old(pool), head, pref)
      ensures srcs == Numbers(head + 1, |pool|)
    {
      var s := pool[head].link.suff;
      NumbersTail(head, |pool|, |Level(suffs, suffs[s].children)|);
      srcs := srcs[1..];
      AddLevel(Sub(head), s, pref);
    }

    /** A record that does not exist is expanded. */
    method Expand(head: nat, ghost bound: nat)
      requires Searching(head) && head < |pool| && !present(pool[head].file, pool[head].link.suff)
      requires Bounded(suffs, targets, present, bound)
      modifies `pool, `kids, `topKids, `srcs
      ensures Searching(head + 1)
      ensures WorkLeft(suffs, bound, pool, head + 1) < WorkLeft(suffs, bound, old(pool), head)
    {
      var pref := PrefOf(targets, RootOf(pool, head));
      FrontierMoves(suffs, targets, present, pool, head, pref);
      HeadIsBounded(suffs, targets, present, pool, head, bound);
      EffortGoesDown(suffs, targets, bound, pool, head, pref);
      Grow(head, pref);
    }

    /** The links of a target. */
    method AddTarget(t: nat)
      requires Valid() && t < |targets| && srcs == Numbers(0, |pool|)
      requires TopsExpanded(suffs, targets[..t], pool)
      modifies `pool, `kids, `topKids, `srcs
      ensures Valid() && srcs == Numbers(0, |pool|) && TopsExpanded(suffs, targets[..t + 1], pool)
    {
      var s, pref := targets[t].suff, targets[t].pref;
      TopExpands(suffs, targets, t, pool);
      NumbersAppend(0, |pool|, |pool| + |Level(suffs, suffs[s].children)|);
      AddLevel(Top(t), s, pref);
    }

    /** The levels below the possible suffixes of the target. */
    method AddTargets()
      requires Valid() && pool == [] && srcs == []
      modifies `pool, `kids, `topKids, `srcs
      ensures Searching(0)
    {
      var t := 0;
      assert Numbers(0, 0) == [];
      while t < |targets|
        invariant 0 <= t <= |targets| && Valid() && srcs == Numbers(0, |pool|) && TopsExpanded(suffs, targets[..t], pool)
      {
        AddTarget(t);
        t := t + 1;
      }
      assert targets[..t] == targets;
    }

    /** SuffFindThem tries the first record of the queue. */
    method TryNext(ghost head: nat) returns (s: nat, found: bool)
      requires Searching(head) && srcs != []
      ensures s == head < |pool| && found == present(pool[s].file, pool[s].link.suff)
      ensures found ==> Answers(suffs, targets, present, pool, Some(s))
    {
      s := srcs[0];
      found := present(pool[s].file, pool[s].link.suff);
      if found { FoundShortest(suffs, targets, present, pool, s); }
    }

    /** A turn of the loop of SuffFindThem: the first record is the answer, or gives way to its level. */
    method Turn(ghost head: nat, ghost bound: nat) returns (bottom: Option<nat>)
      requires Searching(head) && srcs != [] && Bounded(suffs, targets, present, bound)
      modifies `pool, `kids, `topKids, `srcs
      ensures bottom.Some? ==> Valid() && Answers(suffs, targets, present, pool, bottom)
      ensures bottom.None? ==>
        Searching(head + 1) && WorkLeft(suffs, bound, pool, head + 1) < WorkLeft(suffs, bound, old(pool), head)
    {
      var s, found := TryNext(head);
      if found { return Some(s); }
      Expand(s, bound);
      bottom := None;
    }

    /** SuffFindThem: the result is a chain of transformations to a file that exists, and there is no
      * shorter one; without a result there is none at all.  There has to be a bound: otherwise the
      * search does not end (SearchGoesOn). */
    method FindThem(ghost bound: nat) returns (bottom: Option<nat>)
      requires Searching(0) && Bounded(suffs, targets, present, bound)
      modifies `pool, `kids, `topKids, `srcs
      ensures Valid() && Answers(suffs, targets, present, pool, bottom)
    {
      ghost var head := 0;
      while srcs != []
        invariant Searching(head)
        decreases WorkLeft(suffs, bound, pool, head)
      {
        bottom := Turn(head, bound);
        if bottom.Some? { return; }
        head := head + 1;
      }
      bottom := NotFound(head);
    }

    method NotFound(ghost head: nat) returns (bottom: Option<nat>)
      requires Searching(head) && srcs == []
      ensures bottom == None && Answers(suffs, targets, present, pool, bottom)
    {
      FoundNone(suffs, targets, present, pool);
      bottom := None;
    }
  }

  /** The search for a node with some possible suffixes: the queue is filled with their levels and worked
    * off.  The result is a suffix of the node and a shortest chain from it to a file that exists. */
  method FindRule(suffs: seq<Suff>, targets: seq<Target>, present: (string, SuffId) -> bool, ghost bound: nat)
    returns (found: Option<(nat, seq<Link>)>)
    requires Known(suffs) && forall t :: 0 <= t < |targets| ==> targets[t].suff < |suffs|
    requires Bounded(suffs, targets, present, bound)
    ensures found.None? ==> forall t, links :: !Reaches(suffs, targets, present, t, links)
    ensures found.Some? ==>
      && Reaches(suffs, targets, present, found.value.0, found.value.1)
      && forall t, links :: Reaches(suffs, targets, present, t, links) ==> |links| >= |found.value.1|
  {
    var finder := new Finder(suffs, targets, present);
    finder.AddTargets();
    var bottom := finder.FindThem(bound);
    match bottom
    case None => found := None;
    case Some(i) => found := Some((RootOf(finder.pool, i), ChainOf(finder.pool, i)));
  }
}
