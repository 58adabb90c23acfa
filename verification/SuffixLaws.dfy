/** What the chains of suffix transformations are, in other words. */
module SuffixLaws {
  import opened Suffixes

  /** There is a transformation from this suffix to the one before it in the chain; a file without a
    * suffix stands for the null suffix. */
  predicate Transforms(suffs: seq<Suff>, before: SuffId, link: Link) {
    && before < |suffs| && link.suff < |suffs|
    && (exists k :: 0 <= k < |suffs[before].children| && suffs[before].children[k] == link.suff)
    && (link.bare ==> suffs[link.suff].isNull && suffs[link.suff].name != "")
  }

  function Before(s: SuffId, links: seq<Link>, i: nat): SuffId
    requires i < |links|
  {
    if i == 0 then s else links[i - 1].suff
  }

  lemma {:induction false} FollowsExactly(suffs: seq<Suff>, s: SuffId, links: seq<Link>)
    ensures Follows(suffs, s, links) <==> forall i :: 0 <= i < |links| ==> Transforms(suffs, Before(s, links, i), links[i])
    decreases |links|
  {
    if links != [] {
      var first, rest := links[0].suff, links[1..];
      FollowsExactly(suffs, first, rest);
      assert forall i :: 0 <= i < |rest| ==> Before(first, rest, i) == Before(s, links, i + 1) && rest[i] == links[i + 1];
      assert Steps(suffs, s, links[0]) <==> Transforms(suffs, Before(s, links, 0), links[0]);
      if forall i :: 0 <= i < |rest| ==> Transforms(suffs, Before(first, rest, i), rest[i]) {
        forall i | 1 <= i < |links| ensures Transforms(suffs, Before(s, links, i), links[i]) {
          assert Transforms(suffs, Before(first, rest, i - 1), rest[i - 1]);
        }
      }
    }
  }

  /** A chain reaches a file: it is made of transformations, and the file exists whose name is the rest of
    * the target's name with the last suffix, or without one. */
  lemma ReachesExactly(suffs: seq<Suff>, targets: seq<Target>, present: (string, SuffId) -> bool, t: nat, links: seq<Link>)
    requires t < |targets| && links != [] && forall i :: 0 <= i < |links| ==> links[i].suff < |suffs|
    ensures var last, pref := links[|links| - 1], targets[t].pref;
      Reaches(suffs, targets, present, t, links) <==>
        && (forall i :: 0 <= i < |links| ==> Transforms(suffs, Before(targets[t].suff, links, i), links[i]))
        && present(if last.bare then pref else pref + suffs[last.suff].name, last.suff)
  {
    FollowsExactly(suffs, targets[t].suff, links);
  }
}
