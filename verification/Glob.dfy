/** Str_Match: does a string match a pattern with '*', '?', classes and escapes? */
module Glob {
  import opened Options

  datatype Item = One(c: char) | Range(lo: char, hi: char)

  datatype Token = Literal(c: char) | Any | Class(items: seq<Item>) | Star | Never

  /** The token at the start of a pattern, and the length of its text. */
  datatype Step = Step(token: Token, len: nat) | Bad

  // ------------------------------------------------------ patterns as tokens

  /** The position of the bracket that closes a class, or the length of the pattern. */
  function Close(p: string, k: nat): (n: nat)
    requires k <= |p|
    ensures k <= n <= |p| && (n < |p| ==> p[n] == ']')
    ensures forall i :: k <= i < n ==> p[i] != ']'
    decreases |p| - k
  {
    if k == |p| || p[k] == ']' then k else Close(p, k + 1)
  }

  /** What a class lists: characters and ranges; a range has two ends. */
  function Items(body: string): Option<seq<Item>>
    decreases |body|
  {
    if body == "" then Some([])
    else if |body| >= 2 && body[1] == '-' then
      if |body| == 2 then None
      else
        match Items(body[3..])
        case None => None
        case Some(rest) => Some([Range(body[0], body[2])] + rest)
    else
      match Items(body[1..])
      case None => None
      case Some(rest) => Some([One(body[0])] + rest)
  }

  function Next(p: string): (s: Step)
    requires p != ""
    ensures s.Step? ==> 1 <= s.len <= |p|
  {
    if p[0] == '*' then Step(Star, 1)
    else if p[0] == '?' then Step(Any, 1)
    else if p[0] == '[' then
      var n := Close(p, 1);
      if n == |p| then Bad
      else
        match Items(p[1..n])
        case None => Bad
        case Some(items) => Step(Class(items), n + 1)
    else if p[0] == '\\' then
      if |p| == 1 then Step(Never, 1) else Step(Literal(p[1]), 2)
    else Step(Literal(p[0]), 1)
  }

  /** Every class is closed, and so is every range in it. */
  predicate WellFormed(p: string)
    decreases |p|
  {
    p == "" || (Next(p).Step? && WellFormed(p[Next(p).len..]))
  }

  function Tokens(p: string): seq<Token>
    requires WellFormed(p)
    decreases |p|
  {
    if p == "" then [] else [Next(p).token] + Tokens(p[Next(p).len..])
  }

  // ------------------------------------------------------------ the language

  predicate Fits(item: Item, c: char) {
    match item
    case One(x) => x == c
    case Range(lo, hi) => lo <= c <= hi || hi <= c <= lo
  }

  predicate Listed(items: seq<Item>, c: char) {
    exists i :: 0 <= i < |items| && Fits(items[i], c)
  }

  /** A token other than '*' stands for one character. */
  predicate Accepts(t: Token, c: char) {
    match t
    case Literal(x) => x == c
    case Any => true
    case Class(items) => Listed(items, c)
    case Star => false
    case Never => false
  }

  /** The strings a pattern stands for: '*' stands for any string. */
  ghost predicate Language(ts: seq<Token>, s: string)
    decreases |ts|
  {
    if ts == [] then s == ""
    else if ts[0].Star? then exists k :: 0 <= k <= |s| && Language(ts[1..], s[k..])
    else s != "" && Accepts(ts[0], s[0]) && Language(ts[1..], s[1..])
  }

  /** The strings that are found to match: where something follows a '*', at least one character has
    * to be left for it. */
  ghost predicate Found(ts: seq<Token>, s: string)
    decreases |ts|
  {
    if ts == [] then s == ""
    else if ts == [Star] then true
    else if ts[0].Star? then exists k :: 0 <= k < |s| && Found(ts[1..], s[k..])
    else s != "" && Accepts(ts[0], s[0]) && Found(ts[1..], s[1..])
  }

  /** The pattern ends in two '*' in a row. */
  predicate EndsInTwoStars(ts: seq<Token>) {
    |ts| >= 2 && ts[|ts| - 1].Star? && ts[|ts| - 2].Star?
  }

  // -------------------------------------------------------- matching any pattern

  /** Does it match?  Or: the program reads on behind the end of the pattern. */
  datatype Verdict = Yes | No | Past

  /** The item of a class that lists c, from k on.  A range takes three characters, even if the third is
    * a bracket; without one it lists nothing. */
  function Lister(p: string, k: nat, c: char): (at: Option<nat>)
    requires k <= |p|
    ensures at.Some? ==> k <= at.value < |p|
    decreases |p| - k
  {
    if k == |p| || p[k] == ']' then None
    else if p[k] == c then Some(k)
    else if k + 1 < |p| && p[k + 1] == '-' then
      if k + 2 == |p| then None
      else if Fits(Range(p[k], p[k + 2]), c) then Some(k)
      else Lister(p, k + 3, c)
    else Lister(p, k + 1, c)
  }

  /** One character, for what is at j other than '*': the place to go on, if it matches. */
  function After(p: string, j: nat, c: char): (next: Option<nat>)
    requires j < |p|
    ensures next.Some? ==> j < next.value <= |p| + 1
  {
    if p[j] == '?' then Some(j + 1)
    else if p[j] == '[' then
      match Lister(p, j + 1, c)
      case None => None
      case Some(at) => Some(Close(p, at) + 1)
    else
      var k := if p[j] == '\\' then j + 1 else j;
      if k < |p| && p[k] == c then Some(k + 1) else None
  }

  /** The verdict from the places j and i on. */
  function Match(p: string, j: nat, s: string, i: nat): Verdict
    requires j <= |p| + 1 && i <= |s|
    decreases |p| + 1 - j, 1, 0
  {
    if j > |p| then Past
    else if j == |p| then if i == |s| then Yes else No
    else if p[j] == '*' then if j + 1 == |p| then Yes else MatchRest(p, j + 1, s, i)
    else if i == |s| then No
    else
      match After(p, j, s[i])
      case None => No
      case Some(next) => Match(p, next, s, i + 1)
  }

  /** The first verdict that is not No, over the rests of the string. */
  function MatchRest(p: string, j: nat, s: string, i: nat): Verdict
    requires j <= |p| && i <= |s|
    decreases |p| + 1 - j, 2, |s| - i
  {
    if i == |s| then No
    else if Match(p, j, s, i).No? then MatchRest(p, j, s, i + 1)
    else Match(p, j, s, i)
  }

  // ---------------------------------------------- well-formed patterns

  lemma {:induction false} ListedHead(item: Item, rest: seq<Item>, c: char)
    ensures Listed([item] + rest, c) <==> Fits(item, c) || Listed(rest, c)
  {
    var all := [item] + rest;
    if Listed(rest, c) {
      var i :| 0 <= i < |rest| && Fits(rest[i], c);
      assert all[i + 1] == rest[i];
    }
    if Fits(item, c) { assert all[0] == item; }
  }

  /** The first item of a class, and the others. */
  lemma {:induction false} FirstItem(body: string, c: char)
    requires body != "" && Items(body).Some?
    ensures var range := |body| >= 2 && body[1] == '-';
      && (range ==> |body| >= 3)
      && var rest := if range then body[3..] else body[1..];
         var first := if range then Range(body[0], body[2]) else One(body[0]);
         Items(rest).Some? && (Listed(Items(body).value, c) <==> Fits(first, c) || Listed(Items(rest).value, c))
  {
    var range := |body| >= 2 && body[1] == '-';
    var rest := if range then body[3..] else body[1..];
    ListedHead(if range then Range(body[0], body[2]) else One(body[0]), Items(rest).value, c);
  }

  /** A class that is closed lists what its items stand for. */
  lemma {:induction false} ListerIsListed(p: string, k: nat, n: nat, c: char)
    requires k <= n < |p| && p[n] == ']' && (forall i :: k <= i < n ==> p[i] != ']')
    requires Items(p[k..n]).Some?
    ensures Lister(p, k, c).Some? <==> Listed(Items(p[k..n]).value, c)
    ensures Lister(p, k, c).Some? ==> Lister(p, k, c).value < n
    decreases n - k
  {
    var body := p[k..n];
    if k == n {
      assert body == "";
    } else {
      FirstItem(body, c);
      assert body[0] == p[k] && (|body| > 1 ==> body[1] == p[k + 1]) && (|body| > 2 ==> body[2] == p[k + 2]);
      if |body| >= 2 && body[1] == '-' {
        assert body[3..] == p[k + 3..n];
        ListerIsListed(p, k + 3, n, c);
      } else {
        assert body[1..] == p[k + 1..n];
        ListerIsListed(p, k + 1, n, c);
      }
    }
  }

  /** Matching from the position j of the pattern on, in terms of the token there. */
  lemma {:induction false} AtToken(p: string, j: nat)
    requires j < |p| && WellFormed(p[j..])
    ensures var step := Next(p[j..]);
      && step.Step? && j + step.len <= |p| && WellFormed(p[j + step.len..])
      && Tokens(p[j..]) == [step.token] + Tokens(p[j + step.len..])
      && (Tokens(p[j..]) == [step.token] <==> j + step.len == |p|)
  {
    assert p[j..][Next(p[j..]).len..] == p[j + Next(p[j..]).len..];
  }

  lemma {:induction false} AtClass(p: string, j: nat)
    requires j < |p| && p[j] == '[' && WellFormed(p[j..])
    ensures var n := j + Close(p[j..], 1);
      && j + 1 <= n < |p| && p[n] == ']' && (forall i :: j + 1 <= i < n ==> p[i] != ']')
      && Items(p[j + 1..n]).Some? && Next(p[j..]) == Step(Class(Items(p[j + 1..n]).value), n + 1 - j)
  {
    var q, n := p[j..], Close(p[j..], 1);
    assert q[1..n] == p[j + 1..j + n];
    assert forall i :: 1 <= i < n ==> q[i] == p[j + i];
    forall i | j + 1 <= i < j + n ensures p[i] != ']' { assert q[i - j] == p[i]; }
  }

  /** One character for a token that is not '*'. */
  lemma {:induction false} FoundFrom(p: string, j: nat, s: string, i: nat)
    requires i < |s| && j < |p| && p[j] != '*' && WellFormed(p[j..])
    ensures var step := Next(p[j..]);
      && step.Step? && j + step.len <= |p| && WellFormed(p[j + step.len..])
      && (Found(Tokens(p[j..]), s[i..]) <==>
            Accepts(step.token, s[i]) && Found(Tokens(p[j + step.len..]), s[i + 1..]))
  {
    AtToken(p, j);
    assert s[i..][1..] == s[i + 1..];
  }

  /** A '*', with or without something after it. */
  lemma {:induction false} StarFrom(p: string, j: nat, s: string, i: nat)
    requires i <= |s| && j < |p| && p[j] == '*' && WellFormed(p[j..])
    ensures WellFormed(p[j + 1..])
    ensures Found(Tokens(p[j..]), s[i..]) <==>
      j + 1 == |p| || exists k :: 0 <= k < |s[i..]| && Found(Tokens(p[j + 1..]), s[i..][k..])
  {
    AtToken(p, j);
  }

  /** The end of the pattern, or of the string. */
  lemma {:induction false} EndFrom(p: string, j: nat, s: string, i: nat)
    requires i <= |s| && j <= |p| && WellFormed(p[j..])
    ensures j == |p| ==> (Found(Tokens(p[j..]), s[i..]) <==> i == |s|)
    ensures j < |p| && i == |s| && p[j] != '*' ==> !Found(Tokens(p[j..]), s[i..])
  {
    if j < |p| { AtToken(p, j); }
  }

  /** The next token accepts the character exactly if the program goes on behind it. */
  lemma {:induction false} AfterToken(p: string, j: nat, c: char)
    requires j < |p| && p[j] != '*' && WellFormed(p[j..])
    ensures var step := Next(p[j..]);
      step.Step? && After(p, j, c) == if Accepts(step.token, c) then Some(j + step.len) else None
  {
    if p[j] == '[' {
      AtClass(p, j);
      var n := j + Close(p[j..], 1);
      ListerIsListed(p, j + 1, n, c);
    }
  }

  /** For a well-formed pattern the verdict is that of its tokens. */
  lemma {:induction false} MatchIsFound(p: string, j: nat, s: string, i: nat)
    requires j <= |p| && i <= |s| && WellFormed(p[j..])
    ensures Match(p, j, s, i) == if Found(Tokens(p[j..]), s[i..]) then Yes else No
    decreases |p| + 1 - j, 1, 0
  {
    EndFrom(p, j, s, i);
    if j < |p| && p[j] == '*' {
      StarFrom(p, j, s, i);
      if j + 1 < |p| { RestIsFound(p, j + 1, s, i); }
    } else if j < |p| && i < |s| {
      FoundFrom(p, j, s, i);
      AfterToken(p, j, s[i]);
      if After(p, j, s[i]).Some? { MatchIsFound(p, After(p, j, s[i]).value, s, i + 1); }
    }
  }

  lemma {:induction false} RestIsFound(p: string, j: nat, s: string, i: nat)
    requires j <= |p| && i <= |s| && WellFormed(p[j..])
    ensures MatchRest(p, j, s, i) ==
      if exists k :: 0 <= k < |s[i..]| && Found(Tokens(p[j..]), s[i..][k..]) then Yes else No
    decreases |p| + 1 - j, 2, |s| - i
  {
    if i < |s| {
      MatchIsFound(p, j, s, i);
      RestIsFound(p, j, s, i + 1);
      assert s[i..][0..] == s[i..];
      var ts, all, rest := Tokens(p[j..]), s[i..], s[i + 1..];
      if k :| 0 <= k < |rest| && Found(ts, rest[k..]) {
        assert all[k + 1..] == rest[k..];
      }
      forall k | 1 <= k < |all| ensures all[k..] == rest[k - 1..] {}
    }
  }

  // ------------------------------------------------------------- the matcher

  /** The loop over a class: the item that lists c. */
  method InClass(p: string, k: nat, c: char) returns (at: Option<nat>)
    requires k <= |p|
    ensures at == Lister(p, k, c)
  {
    var x := k;
    while true
      invariant k <= x <= |p| && Lister(p, x, c) == Lister(p, k, c)
      decreases |p| - x
    {
      if x == |p| || p[x] == ']' { return None; }
      if p[x] == c { return Some(x); }
      if x + 1 < |p| && p[x + 1] == '-' {
        if x + 2 == |p| { return None; }
        var c2 := p[x + 2];
        if (p[x] <= c && c2 >= c) || (p[x] >= c && c2 <= c) { return Some(x); }
        x := x + 2;
      }
      x := x + 1;
    }
  }

  /** What is at j, other than '*', against the next character. */
  method MatchOne(s: string, i: nat, p: string, j: nat) returns (next: Option<nat>)
    requires i < |s| && j < |p| && p[j] != '*'
    ensures next == After(p, j, s[i])
  {
    var k := j;
    if p[k] == '?' { return Some(k + 1); }
    if p[k] == '[' {
      var at := InClass(p, k + 1, s[i]);
      if at == None { return None; }
      k := at.value;
      while k < |p| && p[k] != ']'
        invariant at.value <= k <= |p| && Close(p, k) == Close(p, at.value)
        decreases |p| - k
      {
        k := k + 1;
      }
      return Some(k + 1);
    }
    if p[k] == '\\' {
      k := k + 1;
      if k == |p| { return None; }
    }
    next := if p[k] == s[i] then Some(k + 1) else None;
  }

  /** Str_Match, from the positions i0 of the string and j0 of the pattern on.  For a well-formed pattern
    * the tokens decide; others may make the program read on behind the end. */
  method StrMatch(s: string, i0: nat, p: string, j0: nat) returns (verdict: Verdict)
    requires i0 <= |s| && j0 <= |p|
    ensures verdict == Match(p, j0, s, i0)
    ensures WellFormed(p[j0..]) ==> verdict == if Found(Tokens(p[j0..]), s[i0..]) then Yes else No
    decreases |p| + 1 - j0, 1
  {
    var i: nat, j: nat := i0, j0;
    if WellFormed(p[j0..]) { MatchIsFound(p, j0, s, i0); }
    while true
      invariant i <= |s| && j0 <= j <= |p| + 1 && Match(p, j, s, i) == Match(p, j0, s, i0)
      decreases |p| + 1 - j
    {
      if j > |p| { return Past; }
      if j == |p| { return if i == |s| then Yes else No; }
      if i == |s| && p[j] != '*' { return No; }
      if p[j] == '*' {
        verdict := MatchStar(s, i, p, j);
        return;
      }
      var next := MatchOne(s, i, p, j);
      if next == None { return No; }
      i, j := i + 1, next.value;
    }
  }

  /** A '*': try what follows it on every rest of the string but the empty one. */
  method MatchStar(s: string, i0: nat, p: string, j0: nat) returns (verdict: Verdict)
    requires i0 <= |s| && j0 < |p| && p[j0] == '*'
    ensures verdict == Match(p, j0, s, i0)
    decreases |p| + 1 - j0, 0
  {
    var i, j := i0, j0 + 1;
    if j == |p| { return Yes; }
    while i < |s|
      invariant i0 <= i <= |s| && MatchRest(p, j, s, i) == MatchRest(p, j, s, i0)
    {
      verdict := StrMatch(s, i, p, j);
      if verdict != No { return; }
      i := i + 1;
    }
    verdict := No;
  }

  // ------------------------------------------------- the matcher and the language

  function Ordinary(ts: seq<Token>): nat {
    if ts == [] then 0 else (if ts[0].Star? then 0 else 1) + Ordinary(ts[1..])
  }

  /** Whatever is found to match is in the language. */
  lemma {:induction false} FoundIsInLanguage(ts: seq<Token>, s: string)
    requires Found(ts, s)
    ensures Language(ts, s)
    decreases |ts|
  {
    if ts == [] {
    } else if ts == [Star] {
      assert s[|s|..] == "" && ts[1..] == [];
    } else if ts[0].Star? {
      var k :| 0 <= k < |s| && Found(ts[1..], s[k..]);
      FoundIsInLanguage(ts[1..], s[k..]);
    } else {
      FoundIsInLanguage(ts[1..], s[1..]);
    }
  }

  lemma {:induction false} LanguageLength(ts: seq<Token>, s: string)
    requires Language(ts, s)
    ensures |s| >= Ordinary(ts)
    decreases |ts|
  {
    if ts == [] {
    } else if ts[0].Star? {
      var k :| 0 <= k <= |s| && Language(ts[1..], s[k..]);
      LanguageLength(ts[1..], s[k..]);
    } else {
      LanguageLength(ts[1..], s[1..]);
    }
  }

  /** A pattern that ends in two '*' needs a character for the last one. */
  lemma {:induction false} FoundLength(ts: seq<Token>, s: string)
    requires Found(ts, s) && EndsInTwoStars(ts)
    ensures |s| > Ordinary(ts)
    decreases |ts|
  {
    var rest := ts[1..];
    if ts[0].Star? {
      var k :| 0 <= k < |s| && Found(rest, s[k..]);
      if |ts| == 2 {
        assert rest == [Star] && Ordinary(rest) == 0;
      } else {
        FoundLength(rest, s[k..]);
      }
    } else {
      assert |ts| > 2;
      FoundLength(rest, s[1..]);
    }
  }

  lemma {:induction false} OnlyStars(ts: seq<Token>)
    requires |ts| >= 2 && Ordinary(ts) == 0
    ensures EndsInTwoStars(ts)
    decreases |ts|
  {
    assert Ordinary(ts[1..]) == 0 && ts[0].Star? && ts[1..][0] == ts[1];
    if |ts| > 2 { OnlyStars(ts[1..]); } else { assert Ordinary(ts[1..][1..]) == 0; }
  }

  /** If the pattern does not end in two '*', the whole language is found. */
  lemma {:induction false} LanguageIsFound(ts: seq<Token>, s: string)
    requires Language(ts, s) && !EndsInTwoStars(ts)
    ensures Found(ts, s)
    decreases |ts|
  {
    if ts == [] || ts == [Star] {
    } else {
      var rest := ts[1..];
      assert !EndsInTwoStars(rest);
      if ts[0].Star? {
        var k :| 0 <= k <= |s| && Language(rest, s[k..]);
        LanguageLength(rest, s[k..]);
        if Ordinary(ts) == 0 { OnlyStars(ts); }
        LanguageIsFound(rest, s[k..]);
      } else {
        LanguageIsFound(rest, s[1..]);
      }
    }
  }

  /** Str_Match is exact for a pattern that does not end in two '*' in a row. */
  lemma {:induction false} Exact(ts: seq<Token>, s: string)
    requires !EndsInTwoStars(ts)
    ensures Found(ts, s) <==> Language(ts, s)
  {
    if Found(ts, s) { FoundIsInLanguage(ts, s); }
    if Language(ts, s) { LanguageIsFound(ts, s); }
  }

  /** The pattern with its last two '*' replaced by '?' and '*'. */
  function Widened(ts: seq<Token>): seq<Token>
    requires EndsInTwoStars(ts)
  {
    ts[..|ts| - 2] + [Any, Star]
  }

  lemma {:induction false} FoundAsWidened(ts: seq<Token>, s: string)
    requires EndsInTwoStars(ts)
    ensures Found(ts, s) <==> Found(Widened(ts), s)
    decreases |ts|
  {
    var rest := ts[1..];
    if |ts| == 2 {
      assert rest == [Star] && Widened(ts) == [Any, Star] && Widened(ts)[1..] == [Star];
      if s != "" { assert Found(rest, s[0..]); }
    } else {
      assert Widened(ts)[0] == ts[0] && Widened(ts)[1..] == Widened(rest) && rest != [Star];
      if ts[0].Star? {
        forall k | 0 <= k < |s| ensures Found(rest, s[k..]) <==> Found(Widened(rest), s[k..]) {
          FoundAsWidened(rest, s[k..]);
        }
      } else if s != "" {
        FoundAsWidened(rest, s[1..]);
      }
    }
  }

  /** A pattern that ends in two '*' is taken as if it ended in '?' and '*'. */
  lemma {:induction false} ExactForTwoStars(ts: seq<Token>, s: string)
    requires EndsInTwoStars(ts)
    ensures Found(ts, s) <==> Language(Widened(ts), s)
  {
    FoundAsWidened(ts, s);
    Exact(Widened(ts), s);
  }

  /** Every token can stand for something. */
  ghost predicate Possible(ts: seq<Token>) {
    forall i :: 0 <= i < |ts| ==> ts[i].Star? || exists c :: Accepts(ts[i], c)
  }

  lemma {:induction false} Shortest(ts: seq<Token>) returns (s: string)
    requires Possible(ts)
    ensures Language(ts, s) && |s| == Ordinary(ts)
    decreases |ts|
  {
    if ts == [] {
      s := "";
    } else {
      var rest := ts[1..];
      assert forall i :: 0 <= i < |rest| ==> rest[i] == ts[i + 1];
      var r := Shortest(rest);
      if ts[0].Star? {
        assert r[0..] == r;
        s := r;
      } else {
        var c :| Accepts(ts[0], c);
        s := [c] + r;
        assert s[1..] == r;
      }
    }
  }

  /** Such a pattern misses a string of its language, unless one of its tokens stands for nothing. */
  lemma {:induction false} TwoStarsMiss(ts: seq<Token>)
    requires EndsInTwoStars(ts) && Possible(ts)
    ensures exists s :: Language(ts, s) && !Found(ts, s)
  {
    var s := Shortest(ts);
    if Found(ts, s) { FoundLength(ts, s); }
  }

  lemma {:induction false} Impossible(ts: seq<Token>, s: string, i: nat)
    requires i < |ts| && !ts[i].Star? && forall c :: !Accepts(ts[i], c)
    ensures !Language(ts, s)
    decreases |ts|
  {
    if Language(ts, s) {
      if ts[0].Star? {
        var k :| 0 <= k <= |s| && Language(ts[1..], s[k..]);
        Impossible(ts[1..], s[k..], i - 1);
      } else if i > 0 {
        Impossible(ts[1..], s[1..], i - 1);
      }
    }
  }

  /** Str_Match decides the language of a pattern, for every string, exactly if the pattern does not
    * end in two '*' or stands for no string at all. */
  lemma {:induction false} ExactlyWhen(ts: seq<Token>)
    ensures (forall s :: Found(ts, s) <==> Language(ts, s)) <==> !EndsInTwoStars(ts) || !Possible(ts)
  {
    if !EndsInTwoStars(ts) {
      forall s ensures Found(ts, s) <==> Language(ts, s) { Exact(ts, s); }
    } else if Possible(ts) {
      TwoStarsMiss(ts);
    } else {
      var i :| 0 <= i < |ts| && !(ts[i].Star? || exists c :: Accepts(ts[i], c));
      forall s ensures !Language(ts, s) && !Found(ts, s) {
        Impossible(ts, s, i);
        if Found(ts, s) { FoundIsInLanguage(ts, s); }
      }
    }
  }
}
