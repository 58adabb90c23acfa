/** The word substitution of variable modifiers: VarModify with VarSubstitute. */
module Words {
  import opened Buffers
  import opened Options

  // ------------------------------------------------------------------- words

  predicate Blank(c: char) { c == ' ' || c == '\t' }

  predicate BlankFree(s: string) {
    forall i :: 0 <= i < |s| ==> !Blank(s[i])
  }

  function SkipBlanks(s: string, i: nat): (b: nat)
    requires i <= |s|
    ensures i <= b <= |s| && (b < |s| ==> !Blank(s[b])) && forall k :: i <= k < b ==> Blank(s[k])
    decreases |s| - i
  {
    if i < |s| && Blank(s[i]) then SkipBlanks(s, i + 1) else i
  }

  function WordEnd(s: string, i: nat): (e: nat)
    requires i <= |s|
    ensures i <= e <= |s| && (e < |s| ==> Blank(s[e])) && forall k :: i <= k < e ==> !Blank(s[k])
    decreases |s| - i
  {
    if i < |s| && !Blank(s[i]) then WordEnd(s, i + 1) else i
  }

  /** The words of a text, from i on: its longest runs without a blank. */
  function Fields(s: string, i: nat): seq<string>
    requires i <= |s|
    decreases |s| - i
  {
    var b := SkipBlanks(s, i);
    if b == |s| then [] else [s[b..WordEnd(s, b)]] + Fields(s, WordEnd(s, b))
  }

  /** A word is put behind a text: after a space, unless one of them is empty. */
  function Put(text: string, word: string): string {
    if word == "" then text else if text == "" then word else text + " " + word
  }

  function PutAll(text: string, words: seq<string>): string
    decreases |words|
  {
    if words == [] then text else PutAll(Put(text, words[0]), words[1..])
  }

  function NonEmpty(words: seq<string>): seq<string> {
    if words == [] then []
    else (if words[0] == "" then [] else [words[0]]) + NonEmpty(words[1..])
  }

  /** The words with one space between them. */
  function Spaced(words: seq<string>): string {
    if words == [] then ""
    else if |words| == 1 then words[0]
    else words[0] + " " + Spaced(words[1..])
  }

  // -------------------------------------------------------------- replacement

  /** What :S replaces by what: everywhere, or only once; anywhere, or at an end of the word. */
  datatype Pattern = Pattern(lhs: string, rhs: string, global: bool, start: bool, end: bool)

  /** The substitution of a word comes to an end: an empty left-hand side is found again and again. */
  predicate Ends(p: Pattern) {
    p.lhs != "" || !p.global || p.start || p.end
  }

  predicate OccursAt(w: string, lhs: string, k: nat) {
    k + |lhs| <= |w| && w[k..k + |lhs|] == lhs
  }

  /** The first place from `from` on where lhs occurs in w. */
  function First(w: string, lhs: string, from: nat): (r: Option<nat>)
    ensures r.Some? ==> from <= r.value && r.value + |lhs| <= |w|
    decreases |w| - from
  {
    if from + |lhs| > |w| then None
    else if OccursAt(w, lhs, from) then Some(from)
    else First(w, lhs, from + 1)
  }

  /** From `from` on, the leftmost occurrence is replaced, and with `global` all those behind it that
    * do not overlap. */
  function Replace(p: Pattern, w: string, from: nat): string
    requires (p.lhs != "" || !p.global) && from <= |w|
    decreases |w| - from
  {
    match First(w, p.lhs, from)
    case None => w[from..]
    case Some(k) =>
      if p.global then w[from..k] + p.rhs + Replace(p, w, k + |p.lhs|)
      else w[from..k] + p.rhs + w[k + |p.lhs|..]
  }

  predicate Matches(p: Pattern, w: string) {
    if p.start && p.end then w == p.lhs
    else if p.start then p.lhs <= w
    else if p.end then |p.lhs| <= |w| && w[|w| - |p.lhs|..] == p.lhs
    else First(w, p.lhs, 0).Some?
  }

  /** A word after the substitution. */
  function Rewrite(p: Pattern, w: string): string
    requires Ends(p)
  {
    if !Matches(p, w) then w
    else if p.start && p.end then p.rhs
    else if p.start then p.rhs + w[|p.lhs|..]
    else if p.end then w[..|w| - |p.lhs|] + p.rhs
    else Replace(p, w, 0)
  }

  /** All words after the substitution; without `global` it is done in the first word that matches. */
  function RewriteAll(p: Pattern, words: seq<string>, noSub: bool): seq<string>
    requires Ends(p)
  {
    if words == [] || noSub then words
    else [Rewrite(p, words[0])] + RewriteAll(p, words[1..], !p.global && Matches(p, words[0]))
  }

  // ------------------------------------------------------------- the program

  /** The pattern as VarSubstitute works on it: a flag says that there is nothing more to do. */
  class Substitution {
    const p: Pattern
    var noSub: bool

    constructor (p: Pattern)
      ensures this.p == p && !noSub
    {
      this.p, noSub := p, false;
    }
  }

  /** What a word adds to the buffer, and whether a space is needed before more is added. */
  function Text(addSpace: bool, word: string): string {
    if word == "" then "" else if addSpace then " " + word else word
  }

  method AddSpaceIf(buf: Buffer, space: bool)
    requires buf.Valid()
    modifies buf, buf.buffer
    ensures buf.Valid() && (buf.buffer == old(buf.buffer) || fresh(buf.buffer))
    ensures buf.Contents() == old(buf.Contents()) + if space then " " else ""
  {
    if space { buf.AddByte(' '); }
  }

  /** A word goes into the buffer as it is. */
  method CopyWord(buf: Buffer, addSpace: bool, word: string)
    requires buf.Valid() && word != ""
    modifies buf, buf.buffer
    ensures buf.Valid() && (buf.buffer == old(buf.buffer) || fresh(buf.buffer))
    ensures buf.Contents() == old(buf.Contents()) + Text(addSpace, word)
  {
    ghost var base := buf.Contents();
    AddSpaceIf(buf, addSpace);
    buf.AddBytes(word);
    AppendOnce(base, if addSpace then " " else "", word);
  }

  lemma {:induction false} AppendOnce(base: string, space: string, a: string)
    ensures base + space + a == base + (space + a) && "" + a == a
  {
  }

  lemma {:induction false} AppendTwice(base: string, space: string, a: string, b: string)
    ensures base + space + a + b == base + (space + (a + b)) && "" + (a + b) == a + b
  {
  }

  /** Two pieces go into the buffer as one word. */
  method AddPieces(buf: Buffer, addSpace: bool, a: string, b: string)
    requires buf.Valid()
    modifies buf, buf.buffer
    ensures buf.Valid() && (buf.buffer == old(buf.buffer) || fresh(buf.buffer))
    ensures buf.Contents() == old(buf.Contents()) + Text(addSpace, a + b)
  {
    ghost var base := buf.Contents();
    var space := addSpace && |a| + |b| != 0;
    AddSpaceIf(buf, space);
    buf.AddBytes(a);
    buf.AddBytes(b);
    AppendTwice(base, if space then " " else "", a, b);
  }

  lemma {:induction false} TextAppend(addSpace: bool, a: string, b: string)
    ensures Text(addSpace, a) + Text(addSpace && a == "", b) == Text(addSpace, a + b)
  {
    if a == "" { assert a + b == b; }
    if b == "" { assert a + b == a; }
  }

  /** So much of the word has been rewritten: `written` is the result so far, and what is left starts
    * at `from`. */
  ghost predicate Progress(p: Pattern, w: string, from: nat, written: string, done: bool, noSub: bool) {
    && (p.lhs != "" || !p.global) && from <= |w| && written + Left(p, w, from, done) == Replace(p, w, 0)
    && (if done || p.global then noSub == (!p.global && First(w, p.lhs, 0).Some?) else !noSub && from == 0)
  }

  /** What the turn of the loop that starts at `from` writes, and where the next one starts. */
  function TurnText(p: Pattern, w: string, from: nat): string
    requires from <= |w|
  {
    match First(w, p.lhs, from)
    case None => ""
    case Some(k) => w[from..k] + p.rhs
  }

  function TurnNext(p: Pattern, w: string, from: nat): nat {
    match First(w, p.lhs, from)
    case None => from
    case Some(k) => k + |p.lhs|
  }

  predicate TurnDone(p: Pattern, w: string, from: nat) {
    First(w, p.lhs, from).None? || !p.global || TurnNext(p, w, from) == |w|
  }

  /** What is still to be written. */
  function Left(p: Pattern, w: string, from: nat, done: bool): string
    requires (p.lhs != "" || !p.global) && from <= |w|
  {
    if done then w[from..] else Replace(p, w, from)
  }

  lemma {:induction false} TurnReplaces(p: Pattern, w: string, from: nat)
    requires (p.lhs != "" || !p.global) && from <= |w|
    ensures from <= TurnNext(p, w, from) <= |w| && (TurnDone(p, w, from) || TurnNext(p, w, from) > from)
    ensures Replace(p, w, from) == TurnText(p, w, from) + Left(p, w, TurnNext(p, w, from), TurnDone(p, w, from))
  {
    if First(w, p.lhs, from).None? {
      assert "" + w[from..] == w[from..];
    } else if p.global && TurnNext(p, w, from) == |w| {
      assert Replace(p, w, |w|) == w[|w|..];
    }
  }

  lemma {:induction false} ProgressTurn(p: Pattern, w: string, from: nat, written: string, noSub: bool)
    requires Progress(p, w, from, written, false, noSub)
    ensures Progress(p, w, TurnNext(p, w, from), written + TurnText(p, w, from), TurnDone(p, w, from),
      noSub || (!p.global && First(w, p.lhs, from).Some?))
    ensures TurnDone(p, w, from) || TurnNext(p, w, from) > from
  {
    TurnReplaces(p, w, from);
    AppendOnce(written, TurnText(p, w, from), Left(p, w, TurnNext(p, w, from), TurnDone(p, w, from)));
  }

  /** A turn of the loop of the unanchored case. */
  method ReplaceNext(s: Substitution, w: string, from: nat, addSpace: bool, buf: Buffer)
    returns (next: nat, space: bool, done: bool)
    requires buf.Valid() && from <= |w|
    modifies buf, buf.buffer, s
    ensures buf.Valid() && (buf.buffer == old(buf.buffer) || fresh(buf.buffer))
    ensures next == TurnNext(s.p, w, from) && done == TurnDone(s.p, w, from)
    ensures buf.Contents() == old(buf.Contents()) + Text(addSpace, TurnText(s.p, w, from))
    ensures space == (addSpace && TurnText(s.p, w, from) == "")
    ensures s.noSub == (old(s.noSub) || (!s.p.global && First(w, s.p.lhs, from).Some?))
  {
    var cp := First(w, s.p.lhs, from);
    next, space, done := from, addSpace, true;
    if cp.Some? {
      AddPieces(buf, addSpace, w[from..cp.value], s.p.rhs);
      if cp.value - from + |s.p.rhs| != 0 { space := false; }
      next := cp.value + |s.p.lhs|;
      done := next == |w|;
      if !s.p.global {
        done := true;
        s.noSub := true;
      }
    }
  }

  /** One piece more behind what has been written. */
  lemma {:induction false} WrittenMore(base: string, before: bool, written: string, piece: string)
    ensures base + Text(before, written) + Text(before && written == "", piece) == base + Text(before, written + piece)
    ensures (before && written == "" && piece == "") == (before && written + piece == "")
  {
    TextAppend(before, written, piece);
    AppendOnce(base, Text(before, written), Text(before && written == "", piece));
  }

  lemma {:induction false} ReplaceDone(p: Pattern, w: string, from: nat, written: string, noSub: bool, base: string, before: bool)
    requires Progress(p, w, from, written, true, noSub) && !p.start && !p.end
    ensures base + Text(before, written) + Text(before && written == "", w[from..]) == base + Text(before, Rewrite(p, w))
    ensures Rewrite(p, w) == written + w[from..] && noSub == (!p.global && Matches(p, w))
  {
    WrittenMore(base, before, written, w[from..]);
  }

  /** What VarSubstitute makes of a word. */
  function Substituted(p: Pattern, w: string, noSub: bool): string
    requires Ends(p)
  {
    if noSub then w else Rewrite(p, w)
  }

  /** The unanchored case of VarSubstitute. */
  method ReplaceIn(s: Substitution, w: string, addSpace0: bool, buf: Buffer) returns (space: bool)
    requires buf.Valid() && Ends(s.p) && !s.p.start && !s.p.end && !s.noSub
    modifies buf, buf.buffer, s
    ensures buf.Valid() && (buf.buffer == old(buf.buffer) || fresh(buf.buffer))
    ensures buf.Contents() == old(buf.Contents()) + Text(addSpace0, Rewrite(s.p, w))
    ensures space == (addSpace0 || Rewrite(s.p, w) != "")
    ensures s.noSub == (!s.p.global && Matches(s.p, w))
  {
    var word, addSpace, done := 0, addSpace0, false;
    var origSize := buf.Size();
    ghost var base, written := buf.Contents(), "";
    AppendOnce(base, "", Replace(s.p, w, 0));
    while !done
      invariant buf.Valid() && (buf.buffer == old(buf.buffer) || fresh(buf.buffer))
      invariant 0 <= word && Progress(s.p, w, word, written, done, s.noSub)
      invariant buf.Contents() == base + Text(addSpace0, written) && addSpace == (addSpace0 && written == "")
      decreases !done, |w| - word
    {
      ghost var piece := TurnText(s.p, w, word);
      ProgressTurn(s.p, w, word, written, s.noSub);
      WrittenMore(base, addSpace0, written, piece);
      word, addSpace, done := ReplaceNext(s, w, word, addSpace, buf);
      written := written + piece;
    }
    ReplaceDone(s.p, w, word, written, s.noSub, base, addSpace0);
    if word < |w| { CopyWord(buf, addSpace, w[word..]); }
    var size := buf.Size();
    space := size != origSize || addSpace;
  }

  /** The anchored cases of VarSubstitute: does the word match, and what is put in its place? */
  method Anchored(s: Substitution, word: string, addSpace: bool, buf: Buffer) returns (matched: bool, space: bool)
    requires buf.Valid() && Ends(s.p) && (s.p.start || s.p.end) && !s.noSub
    modifies buf, buf.buffer, s
    ensures buf.Valid() && (buf.buffer == old(buf.buffer) || fresh(buf.buffer))
    ensures matched == Matches(s.p, word)
    ensures buf.Contents() == old(buf.Contents()) + if matched then Text(addSpace, Rewrite(s.p, word)) else ""
    ensures matched ==> space == (addSpace || Rewrite(s.p, word) != "")
    ensures s.noSub == (!s.p.global && matched)
  {
    var leftLen, wordLen := |s.p.lhs|, |word|;
    matched, space := false, addSpace;
    if s.p.start {
      if s.p.lhs <= word {
        if s.p.end && wordLen == leftLen {
          matched := true;
          assert word == s.p.lhs && s.p.rhs + "" == s.p.rhs;
          AddPieces(buf, addSpace, s.p.rhs, "");
          if |s.p.rhs| != 0 { space := true; }
        } else if !s.p.end {
          matched := true;
          AddPieces(buf, addSpace, s.p.rhs, word[leftLen..]);
          if |s.p.rhs| + wordLen - leftLen != 0 { space := true; }
        }
      }
    } else {
      var cp := wordLen - leftLen;
      if cp >= 0 && word[cp..] == s.p.lhs {
        matched := true;
        AddPieces(buf, addSpace, word[..cp], s.p.rhs);
        if cp + |s.p.rhs| != 0 { space := true; }
      }
    }
    if matched && !s.p.global { s.noSub := true; }
  }

  /** VarSubstitute. */
  method VarSubstitute(s: Substitution, word: string, addSpace: bool, buf: Buffer) returns (space: bool)
    requires buf.Valid() && Ends(s.p) && word != ""
    modifies buf, buf.buffer, s
    ensures buf.Valid() && (buf.buffer == old(buf.buffer) || fresh(buf.buffer))
    ensures buf.Contents() == old(buf.Contents()) + Text(addSpace, Substituted(s.p, word, old(s.noSub)))
    ensures space == (addSpace || Substituted(s.p, word, old(s.noSub)) != "")
    ensures s.noSub == (old(s.noSub) || (!s.p.global && Matches(s.p, word)))
  {
    if !s.noSub {
      if !s.p.start && !s.p.end {
        space := ReplaceIn(s, word, addSpace, buf);
        return;
      }
      space := AtAnEnd(s, word, addSpace, buf);
      return;
    }
    CopyWord(buf, addSpace, word);
    space := true;
  }

  /** The anchored half: a word that does not match is copied. */
  method AtAnEnd(s: Substitution, word: string, addSpace: bool, buf: Buffer) returns (space: bool)
    requires buf.Valid() && word != "" && (s.p.start || s.p.end) && !s.noSub
    modifies buf, buf.buffer, s
    ensures buf.Valid() && (buf.buffer == old(buf.buffer) || fresh(buf.buffer))
    ensures buf.Contents() == old(buf.Contents()) + Text(addSpace, Substituted(s.p, word, false))
    ensures space == (addSpace || Substituted(s.p, word, false) != "")
    ensures s.noSub == (!s.p.global && Matches(s.p, word))
  {
    var matched;
    matched, space := Anchored(s, word, addSpace, buf);
    if !matched {
      CopyWord(buf, addSpace, word);
      space := true;
    }
  }

  lemma {:induction false} PutIsText(text: string, word: string)
    ensures Put(text, word) == text + Text(text != "", word)
    ensures (Put(text, word) != "") == (text != "" || word != "")
  {
    if word != "" && text != "" { AppendOnce(text, " ", word); }
  }

  /** What is to come, when the words before i have given `done`. */
  function Ahead(p: Pattern, str: string, i: nat, done: string, noSub: bool): string
    requires Ends(p) && i <= |str|
  {
    PutAll(done, RewriteAll(p, Fields(str, i), noSub))
  }

  /** The next word. */
  lemma {:induction false} AheadStep(p: Pattern, str: string, i: nat, done: string, noSub: bool)
    requires Ends(p) && i <= |str| && SkipBlanks(str, i) < |str|
    ensures var b := SkipBlanks(str, i); var e := WordEnd(str, b); var word := str[b..e];
      && b < e <= |str|
      && Ahead(p, str, i, done, noSub) ==
        Ahead(p, str, e, Put(done, Substituted(p, word, noSub)), noSub || (!p.global && Matches(p, word)))
  {
    var b := SkipBlanks(str, i);
    var e := WordEnd(str, b);
    var word := str[b..e];
    var words := Fields(str, e);
    assert Fields(str, i) == [word] + words && ([word] + words)[1..] == words;
    if noSub {
      NothingRewritten(p, words);
      assert ([word] + RewriteAll(p, words, true))[1..] == words;
    } else {
      var rest := RewriteAll(p, words, !p.global && Matches(p, word));
      assert ([Rewrite(p, word)] + rest)[1..] == rest;
    }
  }

  lemma {:induction false} NothingRewritten(p: Pattern, words: seq<string>)
    requires Ends(p)
    ensures RewriteAll(p, words, true) == words
  {
  }

  /** The end of the word at b. */
  method FindWord(str: string, i: nat) returns (b: nat, e: nat)
    requires i <= |str|
    ensures b == SkipBlanks(str, i) && e == WordEnd(str, b)
  {
    b := i;
    while b < |str| && Blank(str[b])
      invariant i <= b <= |str| && SkipBlanks(str, b) == SkipBlanks(str, i)
    {
      b := b + 1;
    }
    e := b;
    while e < |str| && !Blank(str[e])
      invariant b <= e <= |str| && WordEnd(str, e) == WordEnd(str, b)
    {
      e := e + 1;
    }
  }

  /** A turn of the loop of VarModify, for the word from b to e. */
  method ModifyWord(s: Substitution, str: string, b: nat, e: nat, addSpace: bool, buf: Buffer, ghost base: string, ghost done: string)
    returns (space: bool)
    requires buf.Valid() && Ends(s.p) && b < e <= |str|
    requires buf.Contents() == base + done && addSpace == (done != "")
    modifies buf, buf.buffer, s
    ensures buf.Valid() && (buf.buffer == old(buf.buffer) || fresh(buf.buffer))
    ensures s.noSub == (old(s.noSub) || (!s.p.global && Matches(s.p, str[b..e])))
    ensures var more := Put(done, Substituted(s.p, str[b..e], old(s.noSub)));
      buf.Contents() == base + more && space == (more != "")
  {
    ghost var text := Substituted(s.p, str[b..e], s.noSub);
    space := VarSubstitute(s, str[b..e], addSpace, buf);
    PutIsText(done, text);
    AppendOnce(base, done, Text(done != "", text));
  }

  /** VarModify with VarSubstitute: the words of the text are rewritten and put together again. */
  method VarModify(str: string, buf: Buffer, s: Substitution)
    requires buf.Valid() && Ends(s.p)
    modifies buf, buf.buffer, s
    ensures buf.Valid() && (buf.buffer == old(buf.buffer) || fresh(buf.buffer))
    ensures buf.Contents() == old(buf.Contents()) + Spaced(NonEmpty(RewriteAll(s.p, Fields(str, 0), old(s.noSub))))
  {
    var i, addSpace := 0, false;
    ghost var base, done, goal := buf.Contents(), "", Ahead(s.p, str, 0, "", s.noSub);
    assert base + "" == base;
    while true
      invariant 0 <= i <= |str| && buf.Valid() && (buf.buffer == old(buf.buffer) || fresh(buf.buffer))
      invariant buf.Contents() == base + done && addSpace == (done != "")
      invariant Ahead(s.p, str, i, done, s.noSub) == goal
      decreases |str| - i
    {
      var b, e := FindWord(str, i);
      if e == b { break; }
      AheadStep(s.p, str, i, done, s.noSub);
      ghost var more := Put(done, Substituted(s.p, str[b..e], s.noSub));
      addSpace := ModifyWord(s, str, b, e, addSpace, buf, base, done);
      done := more;
      i := e;
    }
    AheadEnd(s.p, str, i, done, s.noSub);
    PutAllFromNothing(RewriteAll(s.p, Fields(str, 0), old(s.noSub)));
  }

  lemma {:induction false} AheadEnd(p: Pattern, str: string, i: nat, done: string, noSub: bool)
    requires Ends(p) && i <= |str| && SkipBlanks(str, i) == |str|
    ensures Ahead(p, str, i, done, noSub) == done
  {
  }

  lemma {:induction false} PutAllFromNothing(words: seq<string>)
    ensures PutAll("", words) == Spaced(NonEmpty(words))
  {
    PutAllIsSpaced("", words);
    assert [] + NonEmpty(words) == NonEmpty(words);
  }

  /** Putting words together one by one leaves the non-empty ones, with one space between them. */
  lemma {:induction false} PutAllIsSpaced(text: string, words: seq<string>)
    ensures PutAll(text, words) == Spaced(Alone(text) + NonEmpty(words))
    decreases |words|
  {
    if words == [] {
      assert Alone(text) + [] == Alone(text);
    } else {
      assert words == [words[0]] + words[1..];
      PutAllIsSpaced(Put(text, words[0]), words[1..]);
      PutIsSpaced(text, words[0], words[1..]);
    }
  }

  lemma {:induction false} PutIsSpaced(text: string, word: string, words: seq<string>)
    ensures Spaced(Alone(Put(text, word)) + NonEmpty(words)) == Spaced(Alone(text) + NonEmpty([word] + words))
  {
    NonEmptyFirst(word, words);
    PutFirst(text, word, NonEmpty(words));
  }

  lemma {:induction false} PutFirst(text: string, word: string, rest: seq<string>)
    ensures Spaced(Alone(Put(text, word)) + rest) == Spaced(Alone(text) + (Alone(word) + rest))
  {
    if word == "" {
      EmptyFirst(rest);
    } else if text == "" {
      EmptyFirst(Alone(word) + rest);
    } else {
      PutBoth(text, word, rest);
    }
  }

  lemma {:induction false} PutBoth(text: string, word: string, rest: seq<string>)
    requires text != "" && word != ""
    ensures Spaced(Alone(Put(text, word)) + rest) == Spaced(Alone(text) + (Alone(word) + rest))
  {
    assert Alone(text) + (Alone(word) + rest) == [text, word] + rest;
    assert Alone(Put(text, word)) == [text + " " + word] by {
      assert |text + " " + word| > 0;
    }
    SpacedTwo(text, word, rest);
  }

  lemma {:induction false} EmptyFirst(words: seq<string>)
    ensures Alone("") + words == words
  {
  }

  /** A text as a list of words. */
  function Alone(text: string): seq<string> {
    if text == "" then [] else [text]
  }

  lemma {:induction false} NonEmptyFirst(word: string, words: seq<string>)
    ensures NonEmpty([word] + words) == Alone(word) + NonEmpty(words)
  {
    assert ([word] + words)[1..] == words;
  }

  lemma {:induction false} SpacedTwo(a: string, b: string, words: seq<string>)
    ensures Spaced([a, b] + words) == Spaced([a + " " + b] + words)
  {
    assert ([a, b] + words)[1..] == [b] + words;
    if words != [] {
      assert ([b] + words)[1..] == words && ([a + " " + b] + words)[1..] == words;
      AppendTwice(a, " ", b, " " + Spaced(words));
      assert a + " " + (b + " " + Spaced(words)) == a + " " + b + " " + Spaced(words);
    }
  }

  /** The loop of the unanchored case gets nowhere exactly if the left-hand side is empty and it is to
    * be replaced everywhere in what is left of the word: such a substitution does not end. */
  lemma {:induction false} GetsNowhere(p: Pattern, w: string, from: nat)
    requires from <= |w|
    ensures TurnNext(p, w, from) == from && !TurnDone(p, w, from) <==> p.lhs == "" && p.global && from < |w|
  {
    if p.lhs == "" { assert OccursAt(w, "", from); }
  }

  /** Without `global`, the substitution is done in at most one word: the first that matches. */
  lemma {:induction false} AtMostOne(p: Pattern, words: seq<string>, k: nat)
    requires Ends(p) && !p.global && k < |words|
    ensures |RewriteAll(p, words, false)| == |words|
    ensures (exists j :: 0 <= j < k && Matches(p, words[j])) ==> RewriteAll(p, words, false)[k] == words[k]
    ensures (forall j :: 0 <= j < k ==> !Matches(p, words[j])) ==> RewriteAll(p, words, false)[k] == Rewrite(p, words[k])
    decreases |words|
  {
    var rest := words[1..];
    if Matches(p, words[0]) {
      NothingRewritten(p, rest);
    } else if k > 0 {
      AtMostOne(p, rest, k - 1);
      assert forall j :: 0 <= j < k - 1 ==> rest[j] == words[j + 1];
    } else if rest != [] {
      AtMostOne(p, rest, 0);
    }
  }

  /** The words of a text are not empty, and there is no blank in them. */
  lemma {:induction false} FieldsAreWords(s: string, i: nat, k: nat)
    requires i <= |s| && k < |Fields(s, i)|
    ensures Fields(s, i)[k] != "" && BlankFree(Fields(s, i)[k])
    decreases |s| - i
  {
    var b := SkipBlanks(s, i);
    var e := WordEnd(s, b);
    if k > 0 { FieldsAreWords(s, e, k - 1); }
  }

  /** What is found first: an occurrence, and none before it. */
  lemma {:induction false} FirstIsFirst(w: string, lhs: string, from: nat)
    requires from <= |w|
    ensures var r := First(w, lhs, from);
      match r
      case Some(k) => OccursAt(w, lhs, k) && forall j :: from <= j < k ==> !OccursAt(w, lhs, j)
      case None => forall j :: from <= j ==> !OccursAt(w, lhs, j)
    decreases |w| - from
  {
    if from + |lhs| <= |w| && !OccursAt(w, lhs, from) && from < |w| { FirstIsFirst(w, lhs, from + 1); }
  }
}
