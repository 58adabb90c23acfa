/** What the substitution of words gives, as laws on concatenations. */
module WordLaws {
  import opened Options
  import opened Words

  // ------------------------------------------------------------ at an anchor

  /** At the start of a word, and not at its end. */
  lemma AtStart(p: Pattern, u: string)
    requires p.start && !p.end
    ensures Rewrite(p, p.lhs + u) == p.rhs + u
  {
    assert (p.lhs + u)[|p.lhs|..] == u;
  }

  lemma OnlyAtStart(p: Pattern, w: string)
    requires p.start
    ensures Rewrite(p, w) == w || exists u :: w == p.lhs + u
  {
    if p.lhs <= w {
      assert w == p.lhs + w[|p.lhs|..];
    }
  }

  /** At the end of a word, and not at its start. */
  lemma AtEnd(p: Pattern, u: string)
    requires p.end && !p.start
    ensures Rewrite(p, u + p.lhs) == u + p.rhs
  {
    var w := u + p.lhs;
    assert w[|w| - |p.lhs|..] == p.lhs && w[..|w| - |p.lhs|] == u;
  }

  lemma OnlyAtEnd(p: Pattern, w: string)
    requires p.end
    ensures Rewrite(p, w) == w || exists u :: w == u + p.lhs
  {
    if |p.lhs| <= |w| {
      var u := w[..|w| - |p.lhs|];
      assert w == u + w[|w| - |p.lhs|..];
      if p.start && w == p.lhs { assert w == "" + p.lhs; }
    }
  }

  /** The whole word, or nothing. */
  lemma AtBoth(p: Pattern, w: string)
    requires p.start && p.end
    ensures Rewrite(p, w) == if w == p.lhs then p.rhs else w
  {
  }

  /** From the place d on, w is v. */
  predicate EndsWith(w: string, d: nat, v: string) {
    |w| == d + |v| && forall k :: d <= k < |w| ==> w[k] == v[k - d]
  }

  // --------------------------------------------------------------- anywhere

  /** In u + lhs + v, no occurrence of lhs begins before the one behind u. */
  ghost predicate IsFirst(u: string, lhs: string, v: string) {
    forall x: string, y: string :: x + lhs + y == u + lhs + v ==> |x| >= |u|
  }

  lemma SplitAt(w: string, lhs: string, j: nat)
    ensures OccursAt(w, lhs, j) ==> w[..j] + lhs + w[j + |lhs|..] == w
  {
  }

  lemma NoneBefore(u: string, lhs: string, v: string, j: nat)
    requires IsFirst(u, lhs, v) && j < |u|
    ensures !OccursAt(u + lhs + v, lhs, j)
  {
    SplitAt(u + lhs + v, lhs, j);
  }

  lemma {:induction false} FirstIs(w: string, lhs: string, from: nat, k: nat)
    requires from <= k && OccursAt(w, lhs, k) && forall j :: from <= j < k ==> !OccursAt(w, lhs, j)
    ensures First(w, lhs, from) == Some(k)
    decreases k - from
  {
    if from < k { FirstIs(w, lhs, from + 1, k); }
  }

  /** Behind a prefix, all places move by its length. */
  lemma {:induction false} FirstMoves(v: string, lhs: string, from: nat, w: string, d: nat)
    requires from <= |v| && EndsWith(w, d, v)
    ensures First(w, lhs, d + from) == match First(v, lhs, from) case None => None case Some(k) => Some(d + k)
    decreases |v| - from
  {
    if from + |lhs| <= |v| {
      assert w[d + from..d + from + |lhs|] == v[from..from + |lhs|];
      if from < |v| {
        FirstMoves(v, lhs, from + 1, w, d);
      }
    }
  }

  /** What is left of a word behind a replacement. */
  function Behind(p: Pattern, w: string, next: nat): string
    requires (p.lhs != "" || !p.global) && next <= |w|
  {
    if p.global then Replace(p, w, next) else w[next..]
  }

  lemma ReplacedOnce(p: Pattern, w: string, from: nat, k: nat, next: nat, before: string, behind: string) returns (r: string)
    requires (p.lhs != "" || !p.global) && from <= |w| && First(w, p.lhs, from) == Some(k) && next == k + |p.lhs|
    requires w[from..k] == before && Behind(p, w, next) == behind
    ensures r == Replace(p, w, from) && r == before + p.rhs + behind
  {
    r := Replace(p, w, from);
    if p.global {
      assert Behind(p, w, next) == Replace(p, w, next);
    } else {
      assert Behind(p, w, next) == w[next..];
    }
  }

  /** Behind a prefix of length d, the same is replaced. */
  lemma {:induction false} ReplaceMoves(p: Pattern, v: string, from: nat, w: string, d: nat)
    requires (p.lhs != "" || !p.global) && from <= |v| && EndsWith(w, d, v)
    ensures Replace(p, w, d + from) == Replace(p, v, from)
    decreases |v| - from, 1
  {
    FirstMoves(v, p.lhs, from, w, d);
    match First(v, p.lhs, from)
    case None => PartMoves(v, from, |v|, w, d);
    case Some(k) =>
      var next := k + |p.lhs|;
      var behind := Behind(p, v, next);
      assert Behind(p, w, d + next) == behind by { BehindMoves(p, v, from, next, w, d); }
      assert w[d + from..d + k] == v[from..k] by { PartMoves(v, from, k, w, d); }
      SameReplaced(p, w, v, d, from, k, next);
  }

  /** Two replacements with the same text before and behind. */
  lemma SameReplaced(p: Pattern, w: string, v: string, d: nat, from: nat, k: nat, next: nat)
    requires (p.lhs != "" || !p.global) && from <= |v| && |w| == d + |v|
    requires First(v, p.lhs, from) == Some(k) && First(w, p.lhs, d + from) == Some(d + k) && next == k + |p.lhs|
    requires w[d + from..d + k] == v[from..k] && Behind(p, w, d + next) == Behind(p, v, next)
    ensures Replace(p, w, d + from) == Replace(p, v, from)
  {
    var behind := Behind(p, v, next);
    var r := ReplacedOnce(p, w, d + from, d + k, d + next, v[from..k], behind);
    var r' := ReplacedOnce(p, v, from, k, next, v[from..k], behind);
  }

  lemma {:induction false} BehindMoves(p: Pattern, v: string, from: nat, next: nat, w: string, d: nat)
    requires (p.lhs != "" || !p.global) && from <= next <= |v| && (p.lhs != "" ==> from < next)
    requires EndsWith(w, d, v)
    ensures Behind(p, w, d + next) == Behind(p, v, next)
    decreases |v| - from, 0
  {
    PartMoves(v, next, |v|, w, d);
    if p.global { ReplaceMoves(p, v, next, w, d); }
  }

  lemma PartMoves(v: string, i: nat, j: nat, w: string, d: nat)
    requires i <= j <= |v| && EndsWith(w, d, v)
    ensures w[d + i..d + j] == v[i..j] && (j == |v| ==> w[d + i..] == v[i..])
  {
  }

  lemma Anywhere(p: Pattern, v: string)
    requires Ends(p) && !p.start && !p.end
    ensures Rewrite(p, v) == Replace(p, v, 0)
  {
    assert v[0..] == v;
  }

  /** The first occurrence is replaced; with `global`, so are those in what comes after it. */
  lemma AtFirst(p: Pattern, u: string, v: string)
    requires Ends(p) && !p.start && !p.end && IsFirst(u, p.lhs, v)
    ensures Rewrite(p, u + p.lhs + v) == u + p.rhs + if p.global then Rewrite(p, v) else v
  {
    var w, k, next := u + p.lhs + v, |u|, |u| + |p.lhs|;
    var behind := if p.global then Rewrite(p, v) else v;
    assert First(w, p.lhs, 0) == Some(k) by { FirstIsThere(u, p.lhs, v); }
    assert w[0..k] == u by { Parts(u, p.lhs, v); }
    assert Behind(p, w, next) == behind by { BehindFirst(p, u, v); }
    Anywhere(p, w);
    var r := ReplacedOnce(p, w, 0, k, next, u, behind);
  }

  lemma Parts(u: string, lhs: string, v: string)
    ensures var w := u + lhs + v; w[0..|u|] == u && w[|u|..|u| + |lhs|] == lhs && w[|u| + |lhs|..] == v
  {
  }

  lemma BehindFirst(p: Pattern, u: string, v: string)
    requires Ends(p) && !p.start && !p.end
    ensures Behind(p, u + p.lhs + v, |u| + |p.lhs|) == if p.global then Rewrite(p, v) else v
  {
    if p.global {
      ReplaceMoves(p, v, 0, u + p.lhs + v, |u + p.lhs|);
      Anywhere(p, v);
    } else {
      Parts(u, p.lhs, v);
    }
  }

  lemma FirstIsThere(u: string, lhs: string, v: string)
    requires IsFirst(u, lhs, v)
    ensures First(u + lhs + v, lhs, 0) == Some(|u|)
  {
    var w, k := u + lhs + v, |u|;
    forall j | 0 <= j < k ensures !OccursAt(w, lhs, j) { NoneBefore(u, lhs, v, j); }
    Parts(u, lhs, v);
    FirstIs(w, lhs, 0, k);
  }

  lemma OnlyWhereItOccurs(p: Pattern, w: string)
    requires Ends(p) && !p.start && !p.end
    ensures Rewrite(p, w) == w || exists u, v :: w == u + p.lhs + v
  {
    FirstIsFirst(w, p.lhs, 0);
    match First(w, p.lhs, 0)
    case None =>
    case Some(k) =>
      var u, v := w[..k], w[k + |p.lhs|..];
      assert w == w[..k] + w[k..k + |p.lhs|] + w[k + |p.lhs|..];
      assert w == u + p.lhs + v;
  }

  /** A word matches exactly if it can be written so. */
  lemma MatchesExactly(p: Pattern, w: string)
    ensures p.start && p.end ==> (Matches(p, w) <==> w == p.lhs)
    ensures p.start && !p.end ==> (Matches(p, w) <==> exists u :: w == p.lhs + u)
    ensures p.end && !p.start ==> (Matches(p, w) <==> exists u :: w == u + p.lhs)
    ensures !p.start && !p.end ==> (Matches(p, w) <==> exists u, v :: w == u + p.lhs + v)
  {
    if p.start && p.lhs <= w {
      assert w == p.lhs + w[|p.lhs|..];
    }
    if p.end && |p.lhs| <= |w| {
      assert w == w[..|w| - |p.lhs|] + w[|w| - |p.lhs|..];
    }
    if !p.start && !p.end {
      MatchesAnywhere(p, w);
    }
  }

  lemma MatchesAnywhere(p: Pattern, w: string)
    requires !p.start && !p.end
    ensures Matches(p, w) <==> exists u, v :: w == u + p.lhs + v
  {
    FirstIsFirst(w, p.lhs, 0);
    if Matches(p, w) {
      SplitAt(w, p.lhs, First(w, p.lhs, 0).value);
    }
    forall u, v | w == u + p.lhs + v ensures OccursAt(w, p.lhs, |u|) {
      Parts(u, p.lhs, v);
    }
  }

  // -------------------------------------------------------------- all words

  /** With `global` every word is rewritten. */
  lemma {:induction false} EveryWord(p: Pattern, words: seq<string>, k: nat)
    requires Ends(p) && p.global && k < |words|
    ensures |RewriteAll(p, words, false)| == |words| && RewriteAll(p, words, false)[k] == Rewrite(p, words[k])
    decreases |words|
  {
    if k > 0 {
      EveryWord(p, words[1..], k - 1);
    } else if |words| > 1 {
      EveryWord(p, words[1..], 0);
    }
  }

  // ------------------------------------------------------ splitting and joining

  /** A word is a text that is not empty and has no space or tab in it. */
  predicate IsWord(w: string) {
    w != "" && forall i :: 0 <= i < |w| ==> w[i] != ' ' && w[i] != '\t'
  }

  predicate IsBlank(c: char) {
    c == ' ' || c == '\t'
  }

  lemma {:induction false} BlanksSkipped(s: string, i: nat, b: nat)
    requires i <= b <= |s| && (forall k :: i <= k < b ==> IsBlank(s[k])) && (b < |s| ==> !IsBlank(s[b]))
    ensures SkipBlanks(s, i) == b
  {
  }

  lemma {:induction false} EndOfWord(s: string, i: nat, e: nat)
    requires i <= e <= |s| && (forall k :: i <= k < e ==> !IsBlank(s[k])) && (e < |s| ==> IsBlank(s[e]))
    ensures WordEnd(s, i) == e
  {
  }

  lemma SameWord(v: string, i: nat, w: string, d: nat)
    requires i <= |v| && EndsWith(w, d, v)
    ensures var b := SkipBlanks(v, i); var e := WordEnd(v, b);
      && SkipBlanks(w, d + i) == d + b && WordEnd(w, d + b) == d + e && w[d + b..d + e] == v[b..e]
  {
    var b := SkipBlanks(v, i);
    var e := WordEnd(v, b);
    BlanksSkipped(w, d + i, d + b);
    EndOfWord(w, d + b, d + e);
  }

  /** The words of a text do not depend on what stands before it. */
  lemma {:induction false} FieldsMove(v: string, i: nat, w: string, d: nat)
    requires i <= |v| && EndsWith(w, d, v)
    ensures Fields(w, d + i) == Fields(v, i)
    decreases |v| - i, 1
  {
    var b := SkipBlanks(v, i);
    SameWord(v, i, w, d);
    if b < |v| {
      MoveOn(v, i, w, d, b, WordEnd(v, b));
    }
  }

  lemma {:induction false} MoveOn(v: string, i: nat, w: string, d: nat, b: nat, e: nat)
    requires i <= |v| && EndsWith(w, d, v) && b == SkipBlanks(v, i) && b < |v| && e == WordEnd(v, b)
    requires SkipBlanks(w, d + i) == d + b && WordEnd(w, d + b) == d + e && w[d + b..d + e] == v[b..e]
    ensures Fields(w, d + i) == Fields(v, i)
    decreases |v| - i, 0
  {
    var word, rest := v[b..e], Fields(v, e);
    FirstField(v, i, b, e, word, rest);
    assert Fields(w, d + e) == rest by { FieldsMove(v, e, w, d); }
    FirstField(w, d + i, d + b, d + e, word, rest);
  }

  lemma FirstField(s: string, i: nat, b: nat, e: nat, word: string, rest: seq<string>)
    requires i <= |s| && b == SkipBlanks(s, i) && b < |s| && e == WordEnd(s, b) && s[b..e] == word && Fields(s, e) == rest
    ensures Fields(s, i) == [word] + rest
  {
  }

  /** A blank before a text makes no difference. */
  lemma BlankFirst(c: char, v: string)
    requires IsBlank(c)
    ensures Fields([c] + v, 0) == Fields(v, 0)
  {
    var w, b := [c] + v, SkipBlanks(v, 0);
    BlanksSkipped(w, 0, b + 1);
    BlanksSkipped(w, 1, b + 1);
    FieldsMove(v, 0, w, 1);
  }

  /** A word, and what stands behind the blank after it. */
  lemma WordFirst(word: string, c: char, v: string)
    requires IsWord(word) && IsBlank(c)
    ensures Fields(word + [c] + v, 0) == [word] + Fields(v, 0)
  {
    var w, n := word + [c] + v, |word|;
    BlanksSkipped(w, 0, 0);
    EndOfWord(w, 0, n);
    assert w[0..n] == word && w == word + ([c] + v);
    FieldsMove([c] + v, 0, w, n);
    BlankFirst(c, v);
  }

  lemma WordAlone(word: string)
    requires IsWord(word)
    ensures Fields(word, 0) == [word] && Fields("", 0) == []
  {
    var n := |word|;
    BlanksSkipped(word, 0, 0);
    EndOfWord(word, 0, n);
    assert word[0..n] == word && SkipBlanks(word, n) == n;
  }

  function Lengths(words: seq<string>): nat {
    if words == [] then 0 else |words[0]| + Lengths(words[1..])
  }

  /** Words that have been put together are found again, and there is one character between two. */
  lemma {:induction false} JoinedAndSplit(words: seq<string>)
    requires forall k :: 0 <= k < |words| ==> IsWord(words[k])
    ensures Fields(Spaced(words), 0) == words
    ensures words != [] ==> |Spaced(words)| == Lengths(words) + |words| - 1
  {
    if |words| == 1 {
      WordAlone(words[0]);
    } else if |words| > 1 {
      var rest := words[1..];
      JoinedAndSplit(rest);
      WordFirst(words[0], ' ', Spaced(rest));
      assert Spaced(words) == words[0] + [' '] + Spaced(rest) && words == [words[0]] + rest;
    }
  }
}
