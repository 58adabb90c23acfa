/** update_database: the dependencies of some targets are merged into a file of sections, one a
  * target, in one pass over the file.
  */
module Dependencies {
  import opened Options

  /** What fgets gives: a line with its newline. */
  type Line = string

  datatype Target = Target(name: string, curdeps: seq<string>, stddeps: seq<string>)

  /** A header line and the lines after it, up to the next header. */
  datatype Section = Section(header: Line, body: seq<Line>)

  const DEPENDENTS_OF := "# dependents of "
  const SEPARATOR := "#\n"

  predicate IsHeader(line: Line) {
    DEPENDENTS_OF <= line
  }

  function Header(name: string): (h: Line)
    ensures IsHeader(h)
  {
    DEPENDENTS_OF + name + ":\n"
  }

  // ------------------------------------------------------------------ comparing names

  /** strcmp. */
  function Strcmp(a: string, b: string): int {
    if a == "" && b == "" then 0
    else if a == "" then -1
    else if b == "" then 1
    else if a[0] < b[0] then -1
    else if a[0] > b[0] then 1
    else Strcmp(a[1..], b[1..])
  }

  lemma {:induction false} StrcmpIsOrder(a: string, b: string)
    ensures Strcmp(a, b) == 0 <==> a == b
    ensures Strcmp(a, b) > 0 <==> Strcmp(b, a) < 0
  {
    if a != "" && b != "" && a[0] == b[0] {
      StrcmpIsOrder(a[1..], b[1..]);
      assert a == [a[0]] + a[1..] && b == [b[0]] + b[1..];
    }
  }

  lemma {:induction false} StrcmpIsTransitive(a: string, b: string, c: string)
    ensures Strcmp(a, b) < 0 && Strcmp(b, c) < 0 ==> Strcmp(a, c) < 0
  {
    if a != "" && b != "" && c != "" {
      StrcmpIsTransitive(a[1..], b[1..], c[1..]);
    }
  }

  /** a comes before b in a dictionary: it is the beginning of b, or has the smaller character at the
    * first place where they differ. */
  predicate Earlier(a: string, b: string) {
    || (|a| < |b| && b[..|a|] == a)
    || (exists k :: 0 <= k < |a| && k < |b| && a[..k] == b[..k] && a[k] < b[k])
  }

  lemma {:induction false} StrcmpIsDictionary(a: string, b: string)
    ensures Strcmp(a, b) < 0 <==> Earlier(a, b)
  {
    if a != "" && b != "" {
      if a[0] == b[0] {
        StrcmpIsDictionary(a[1..], b[1..]);
        EarlierBehind(a, b);
      } else if a[0] < b[0] {
        assert a[..0] == b[..0];
      }
    }
  }

  /** A common first character makes no difference. */
  lemma EarlierBehind(a: string, b: string)
    requires a != "" && b != "" && a[0] == b[0]
    ensures Earlier(a, b) <==> Earlier(a[1..], b[1..])
  {
    var a', b' := a[1..], b[1..];
    if |a| < |b| {
      assert b[..|a|] == [b[0]] + b'[..|a'|] && a == [a[0]] + a';
      if b[..|a|] == a { assert b'[..|a'|] == b[..|a|][1..]; }
    }
    forall k | 1 <= k < |a| && k < |b| ensures a[..k] == b[..k] <==> a'[..k - 1] == b'[..k - 1] {
      assert a[..k] == [a[0]] + a'[..k - 1] && b[..k] == [b[0]] + b'[..k - 1];
      if a[..k] == b[..k] { assert a'[..k - 1] == a[..k][1..]; }
    }
    if k :| 0 <= k < |a| && k < |b| && a[..k] == b[..k] && a[k] < b[k] {
      assert a'[..k - 1] == b'[..k - 1] && a'[k - 1] < b'[k - 1];
    }
    if k :| 0 <= k < |a'| && k < |b'| && a'[..k] == b'[..k] && a'[k] < b'[k] {
      assert a[..k + 1] == b[..k + 1] && a[k + 1] < b[k + 1];
    }
  }

  /** The name in a header, if it ends as it should. */
  function NameIn(header: Line): Option<string> {
    if !IsHeader(header) then None
    else
      var rest := header[|DEPENDENTS_OF|..];
      if |rest| >= 2 && rest[|rest| - 2..] == ":\n" then Some(rest[..|rest| - 2]) else None
  }

  /** compare_targets: a header that does not end as it should comes before every name. */
  function CompareTargets(header: Line, name: string): int {
    match NameIn(header)
    case None => -1
    case Some(n) => Strcmp(n, name)
  }

  lemma NameInHeader(name: string)
    ensures NameIn(Header(name)) == Some(name)
  {
    assert Header(name)[|DEPENDENTS_OF|..] == name + ":\n";
  }

  // ------------------------------------------------------------------ files of sections

  /** The lines before the first header. */
  function Preamble(lines: seq<Line>): seq<Line> {
    if lines == [] || IsHeader(lines[0]) then [] else [lines[0]] + Preamble(lines[1..])
  }

  function Sections(lines: seq<Line>): seq<Section> {
    if lines == [] then []
    else if IsHeader(lines[0]) then [Section(lines[0], Preamble(lines[1..]))] + Sections(lines[1..])
    else Sections(lines[1..])
  }

  function Text(sections: seq<Section>): seq<Line> {
    if sections == [] then [] else [sections[0].header] + sections[0].body + Text(sections[1..])
  }

  /** A file is its preamble and its sections. */
  lemma {:induction false} TextOfSections(lines: seq<Line>)
    ensures lines == Preamble(lines) + Text(Sections(lines))
  {
    if lines != [] {
      TextOfSections(lines[1..]);
      assert lines == [lines[0]] + lines[1..];
      if IsHeader(lines[0]) {
        assert Sections(lines)[1..] == Sections(lines[1..]);
      }
    }
  }

  // ------------------------------------------------------------------ what is written for a target

  function CurLines(name: string, deps: seq<string>): seq<Line> {
    if deps == [] then [] else CurLines(name, deps[..|deps| - 1]) + [name + ": " + deps[|deps| - 1] + "\n"]
  }

  function StdLines(name: string, deps: seq<string>): seq<Line> {
    if deps == [] then [] else StdLines(name, deps[..|deps| - 1]) + ["# " + name + ": <" + deps[|deps| - 1] + ">\n"]
  }

  /** One line for each dependency, in their order. */
  lemma {:induction false} LinesSay(name: string, deps: seq<string>)
    ensures |CurLines(name, deps)| == |deps| == |StdLines(name, deps)|
    ensures forall k :: 0 <= k < |deps| ==>
      && CurLines(name, deps)[k] == name + ": " + deps[k] + "\n"
      && StdLines(name, deps)[k] == "# " + name + ": <" + deps[k] + ">\n"
  {
    if deps != [] { LinesSay(name, deps[..|deps| - 1]); }
  }

  function Body(t: Target, stdflag: bool): seq<Line> {
    CurLines(t.name, t.curdeps) + if stdflag then StdLines(t.name, t.stddeps) else []
  }

  /** The lines of a target: its dependencies, and behind them, if they are wanted, the standard ones. */
  lemma BodySays(t: Target, stdflag: bool)
    ensures var n, lines := |t.curdeps|, Body(t, stdflag);
      && |lines| == n + (if stdflag then |t.stddeps| else 0)
      && (forall k :: 0 <= k < n ==> lines[k] == t.name + ": " + t.curdeps[k] + "\n")
      && (forall k :: n <= k < |lines| ==> lines[k] == "# " + t.name + ": <" + t.stddeps[k - n] + ">\n")
  {
    LinesSay(t.name, t.curdeps);
    LinesSay(t.name, t.stddeps);
  }

  /** The section of a target, with a separator if anything follows. */
  function Fresh(header: Line, t: Target, stdflag: bool, more: bool): Section {
    Section(header, Body(t, stdflag) + if more then [SEPARATOR] else [])
  }

  /** The sections of the file and of the targets, merged. */
  function Merge(olds: seq<Section>, news: seq<Target>, stdflag: bool): seq<Section>
    decreases |olds| + |news|
  {
    if news == [] then olds
    else if olds == [] then
      [Fresh(Header(news[0].name), news[0], stdflag, |news| > 1)] + Merge([], news[1..], stdflag)
    else
      var cmp := CompareTargets(olds[0].header, news[0].name);
      if cmp < 0 then
        [if |olds| > 1 then olds[0] else Section(olds[0].header, olds[0].body + [SEPARATOR])]
        + Merge(olds[1..], news, stdflag)
      else if cmp == 0 then
        [Fresh(olds[0].header, news[0], stdflag, |olds| > 1 || |news| > 1)] + Merge(olds[1..], news[1..], stdflag)
      else
        [Fresh(Header(news[0].name), news[0], stdflag, true)] + Merge(olds, news[1..], stdflag)
  }

  /** The separator before the sections that are still to be written. */
  function Sep(olds: seq<Section>, news: seq<Target>, afterNew: bool): seq<Line> {
    if (olds == [] && news == []) || (!afterNew && olds != []) || (!afterNew && news == []) then [] else [SEPARATOR]
  }

  function Rest(olds: seq<Section>, news: seq<Target>, stdflag: bool, afterNew: bool): seq<Line> {
    Sep(olds, news, afterNew) + Text(Merge(olds, news, stdflag))
  }

  /** The file after the merge. */
  function Updated(lines: seq<Line>, news: seq<Target>, stdflag: bool): seq<Line> {
    Preamble(lines) + Rest(Sections(lines), news, stdflag, false)
  }

  // ------------------------------------------------------------------ one pass

  lemma {:induction false} TextOfFirst(header: Line, body: seq<Line>, sep: seq<Line>, rest: seq<Section>)
    ensures Text([Section(header, body + sep)] + rest) == [header] + (body + (sep + Text(rest)))
  {
    assert ([Section(header, body + sep)] + rest)[1..] == rest;
  }

  lemma {:induction false} KeepOld(olds: seq<Section>, news: seq<Target>, stdflag: bool)
    requires olds != [] && news != [] && CompareTargets(olds[0].header, news[0].name) < 0
    ensures Text(Merge(olds, news, stdflag)) == [olds[0].header] + (olds[0].body + Rest(olds[1..], news, stdflag, false))
  {
    var sep: seq<Line> := if |olds| > 1 then [] else [SEPARATOR];
    assert olds[0].body + [] == olds[0].body;
    TextOfFirst(olds[0].header, olds[0].body, sep, Merge(olds[1..], news, stdflag));
  }

  lemma {:induction false} ReplaceOld(olds: seq<Section>, news: seq<Target>, stdflag: bool)
    requires olds != [] && news != [] && CompareTargets(olds[0].header, news[0].name) == 0
    ensures Text(Merge(olds, news, stdflag))
         == [olds[0].header] + (Body(news[0], stdflag) + Rest(olds[1..], news[1..], stdflag, true))
  {
    var sep: seq<Line> := if |olds| > 1 || |news| > 1 then [SEPARATOR] else [];
    TextOfFirst(olds[0].header, Body(news[0], stdflag), sep, Merge(olds[1..], news[1..], stdflag));
  }

  lemma {:induction false} InsertNew(olds: seq<Section>, news: seq<Target>, stdflag: bool)
    requires news != [] && (olds == [] || CompareTargets(olds[0].header, news[0].name) > 0)
    ensures Text(Merge(olds, news, stdflag))
         == [Header(news[0].name)] + (Body(news[0], stdflag) + Rest(olds, news[1..], stdflag, true))
  {
    var sep: seq<Line> := if olds != [] || |news| > 1 then [SEPARATOR] else [];
    TextOfFirst(Header(news[0].name), Body(news[0], stdflag), sep, Merge(olds, news[1..], stdflag));
  }

  /** What is still to be merged, when the last header read is in the buffer. */
  function Pending(eof: bool, buffer: Line, inf: seq<Line>): seq<Section> {
    if eof then [] else Sections([buffer] + inf)
  }

  /** What is owed after a target has been written. */
  function Owed(eof: bool, buffer: Line, inf: seq<Line>, news: seq<Target>, stdflag: bool): seq<Line> {
    Rest(Pending(eof, buffer, inf), news, stdflag, true)
  }

  /** What is owed when lines are being copied. */
  function Copying(inf: seq<Line>, news: seq<Target>, stdflag: bool): seq<Line> {
    Preamble(inf) + Rest(Sections(inf), news, stdflag, false)
  }

  lemma {:induction false} HeaderFirst(buffer: Line, inf: seq<Line>)
    requires IsHeader(buffer)
    ensures Preamble([buffer] + inf) == []
    ensures Sections([buffer] + inf) == [Section(buffer, Preamble(inf))] + Sections(inf)
  {
    assert ([buffer] + inf)[1..] == inf;
  }

  lemma {:induction false} OwedAtEnd(eof: bool, buffer: Line, inf: seq<Line>, stdflag: bool)
    requires !eof ==> IsHeader(buffer)
    ensures Owed(eof, buffer, inf, [], stdflag) == if eof then [] else [SEPARATOR] + ([buffer] + inf)
  {
    if !eof {
      HeaderFirst(buffer, inf);
      TextOfSections([buffer] + inf);
    }
  }

  lemma {:induction false} OwedToInsert(eof: bool, buffer: Line, inf: seq<Line>, news: seq<Target>, stdflag: bool)
    requires news != [] && (eof || (IsHeader(buffer) && CompareTargets(buffer, news[0].name) > 0))
    ensures Owed(eof, buffer, inf, news, stdflag)
         == [SEPARATOR] + ([Header(news[0].name)] + (Body(news[0], stdflag) + Owed(eof, buffer, inf, news[1..], stdflag)))
  {
    if !eof {
      HeaderFirst(buffer, inf);
    }
    InsertNew(Pending(eof, buffer, inf), news, stdflag);
  }

  lemma {:induction false} OwedToKeep(buffer: Line, inf: seq<Line>, news: seq<Target>, stdflag: bool)
    requires news != [] && IsHeader(buffer) && CompareTargets(buffer, news[0].name) < 0
    ensures Owed(false, buffer, inf, news, stdflag) == [SEPARATOR] + ([buffer] + Copying(inf, news, stdflag))
  {
    HeaderFirst(buffer, inf);
    KeepOld(Pending(false, buffer, inf), news, stdflag);
  }

  lemma {:induction false} OwedToReplace(buffer: Line, inf: seq<Line>, news: seq<Target>, stdflag: bool)
    requires news != [] && IsHeader(buffer) && CompareTargets(buffer, news[0].name) == 0
    ensures Owed(false, buffer, inf, news, stdflag)
         == [SEPARATOR] + ([buffer] + (Body(news[0], stdflag) + Rest(Sections(inf), news[1..], stdflag, true)))
  {
    HeaderFirst(buffer, inf);
    ReplaceOld(Pending(false, buffer, inf), news, stdflag);
  }

  lemma AppendOnce(out: seq<Line>, a: seq<Line>, rest: seq<Line>)
    ensures out + (a + rest) == (out + a) + rest
  {
  }

  lemma AppendTwice(out: seq<Line>, a: seq<Line>, b: seq<Line>, rest: seq<Line>)
    ensures out + (a + (b + rest)) == ((out + a) + b) + rest
  {
  }

  lemma {:induction false} ReplaceStep(out: seq<Line>, buffer: Line, inf: seq<Line>, news: seq<Target>, i: nat, stdflag: bool)
    requires i < |news| && IsHeader(buffer) && CompareTargets(buffer, news[i].name) == 0
    ensures out + Owed(false, buffer, inf, news[i..], stdflag)
         == ((out + [SEPARATOR]) + [buffer])
            + (Body(news[i], stdflag) + Rest(Sections(inf), news[i + 1..], stdflag, true))
  {
    OwedToReplace(buffer, inf, news[i..], stdflag);
    assert news[i..][1..] == news[i + 1..];
    AppendTwice(out, [SEPARATOR], [buffer], Body(news[i], stdflag) + Rest(Sections(inf), news[i + 1..], stdflag, true));
  }

  lemma Lead(out: seq<Line>, needHeader: bool, header: Line, body: seq<Line>, rest: seq<Line>)
    ensures out + (if needHeader then [SEPARATOR] + ([header] + (body + rest)) else body + rest)
         == (out + ((if needHeader then [SEPARATOR, header] else []) + body)) + rest
  {
    AppendOnce(out, body, rest);
    assert [] + body == body;
    if needHeader {
      assert [SEPARATOR] + ([header] + (body + rest)) == ([SEPARATOR, header] + body) + rest;
      AppendOnce(out, [SEPARATOR, header] + body, rest);
    }
  }

  /** The file being read, the file being written, and the line that was read last. */
  class Pass {
    const stdflag: bool
    const targets: seq<Target>
    var inf: seq<Line>
    var outf: seq<Line>
    var buffer: Line
    var i: nat

    constructor (targets: seq<Target>, stdflag: bool, inf: seq<Line>)
      ensures this.targets == targets && this.stdflag == stdflag && this.inf == inf && outf == [] && i == 0
    {
      this.targets, this.stdflag, this.inf, outf, buffer, i := targets, stdflag, inf, [], "", 0;
    }

    method Fgets() returns (ok: bool)
      modifies `inf, `buffer
      ensures ok <==> old(inf) != []
      ensures if ok then [buffer] + inf == old(inf) else inf == []
    {
      ok := inf != [];
      if ok {
        buffer, inf := inf[0], inf[1..];
      }
    }

    method Fputs(line: Line)
      modifies `outf
      ensures outf == old(outf) + [line]
    {
      outf := outf + [line];
    }

    /** output_target. */
    method OutputTarget(t: Target, needHeader: bool)
      modifies `outf
      ensures outf == old(outf) + ((if needHeader then [SEPARATOR, Header(t.name)] else []) + Body(t, stdflag))
    {
      if needHeader {
        Fputs(SEPARATOR);
        Fputs(DEPENDENTS_OF + t.name + ":\n");
      }
      ghost var was := outf;
      var k := 0;
      while k < |t.curdeps|
        invariant k <= |t.curdeps| && outf == was + CurLines(t.name, t.curdeps[..k])
      {
        assert t.curdeps[..k + 1][..k] == t.curdeps[..k];
        Fputs(t.name + ": " + t.curdeps[k] + "\n");
        k := k + 1;
      }
      assert t.curdeps[..k] == t.curdeps;
      if !stdflag { return; }
      ghost var now := outf;
      k := 0;
      while k < |t.stddeps|
        invariant k <= |t.stddeps| && outf == now + StdLines(t.name, t.stddeps[..k])
      {
        assert t.stddeps[..k + 1][..k] == t.stddeps[..k];
        Fputs("# " + t.name + ": <" + t.stddeps[k] + ">\n");
        k := k + 1;
      }
      assert t.stddeps[..k] == t.stddeps;
    }

    /** The old lines of a section are read over; the next header is left in the buffer. */
    method SkipBody() returns (eof: bool)
      modifies `inf, `buffer
      ensures Sections(old(inf)) == Pending(eof, buffer, inf) && |inf| <= old(|inf|)
      ensures if eof then inf == [] else IsHeader(buffer)
    {
      var ok := Fgets();
      while ok
        invariant Sections(old(inf)) == if ok then Sections([buffer] + inf) else []
        invariant !ok ==> inf == []
        invariant |inf| <= old(|inf|)
        decreases |inf|, if ok then 1 else 0
      {
        if DEPENDENTS_OF <= buffer { return false; }
        ok := Fgets();
      }
      eof := true;
    }

    /** The file is at its end, or a header is in the buffer. */
    ghost predicate AtHeader(eof: bool)
      reads this
    {
      if eof then inf == [] else IsHeader(buffer)
    }

    /** What is written and what is owed make the goal. */
    ghost predicate Copies(goal: seq<Line>)
      reads this
    {
      i < |targets| && outf + Copying(inf, targets[i..], stdflag) == goal
    }

    ghost predicate Owes(eof: bool, goal: seq<Line>)
      reads this
    {
      i <= |targets| && outf + Owed(eof, buffer, inf, targets[i..], stdflag) == goal
    }

    /** The same, when the header of a target has been written and its lines have not. */
    ghost predicate Started(eof: bool, goal: seq<Line>)
      reads this
    {
      && i < |targets|
      && outf + (Body(targets[i], stdflag) + Owed(eof, buffer, inf, targets[i + 1..], stdflag)) == goal
    }

    /** Targets are written until one comes after the section in the buffer, or there is none left. */
    method OutputTargets(eof0: bool, ghost goal: seq<Line>)
      requires AtHeader(eof0) && Started(eof0, goal)
      modifies this
      ensures |inf| <= old(|inf|)
      ensures if i == |targets| then outf == goal else Copies(goal)
    {
      var eof, needHeader, done := eof0, false, false;
      while !done
        invariant |inf| <= old(|inf|)
        invariant done ==> if i == |targets| then outf == goal else Copies(goal)
        invariant !done ==> i < |targets| && AtHeader(eof)
        invariant !done ==> if needHeader then Owes(eof, goal) && Inserts(eof) else Started(eof, goal)
        decreases if done then 0 else 1, |targets| - i
      {
        OneTarget(eof, needHeader, goal);
        if i == |targets| {
          CopyRest(eof, goal);
          done := true;
        } else {
          done, needHeader, eof := NextTarget(eof, goal);
        }
      }
    }

    /** The next target comes before the section in the buffer. */
    ghost predicate Inserts(eof: bool)
      reads this
      requires i < |targets|
    {
      eof || CompareTargets(buffer, targets[i].name) > 0
    }

    method OneTarget(eof: bool, needHeader: bool, ghost goal: seq<Line>)
      requires i < |targets| && AtHeader(eof)
      requires if needHeader then Owes(eof, goal) && Inserts(eof) else Started(eof, goal)
      modifies `outf, `i
      ensures Owes(eof, goal) && i == old(i) + 1
    {
      assert targets[i..][1..] == targets[i + 1..];
      if needHeader {
        OwedToInsert(eof, buffer, inf, targets[i..], stdflag);
      }
      Lead(outf, needHeader, Header(targets[i].name), Body(targets[i], stdflag),
           Owed(eof, buffer, inf, targets[i + 1..], stdflag));
      OutputTarget(targets[i], needHeader);
      i := i + 1;
    }

    /** No target is left: the rest of the file is copied. */
    method CopyRest(eof: bool, ghost goal: seq<Line>)
      requires i == |targets| && AtHeader(eof) && Owes(eof, goal)
      modifies `outf, `inf
      ensures outf == goal && |inf| <= old(|inf|)
    {
      OwedAtEnd(eof, buffer, inf, stdflag);
      if !eof {
        AppendTwice(outf, [SEPARATOR], [buffer], inf);
        Fputs(SEPARATOR);
        Fputs(buffer);
        outf, inf := outf + inf, [];
      }
    }

    /** The next target against the section in the buffer: insert it, replace the section, or go back
      * to copying lines. */
    method NextTarget(eof: bool, ghost goal: seq<Line>) returns (done: bool, needHeader: bool, eofAfter: bool)
      requires i < |targets| && AtHeader(eof) && Owes(eof, goal)
      modifies `outf, `inf, `buffer
      ensures |inf| <= old(|inf|)
      ensures done ==> Copies(goal)
      ensures !done ==> AtHeader(eofAfter)
      ensures !done ==> if needHeader then Owes(eofAfter, goal) && Inserts(eofAfter) else Started(eofAfter, goal)
    {
      done, needHeader, eofAfter := false, true, eof;
      if eof { return; }
      var cmp := CompareTargets(buffer, targets[i].name);
      if cmp > 0 { return; }
      needHeader := false;
      if cmp < 0 {
        done := true;
        KeepSection(goal);
      } else {
        eofAfter := ReplaceSection(goal);
      }
    }

    method KeepSection(ghost goal: seq<Line>)
      requires i < |targets| && AtHeader(false) && Owes(false, goal)
      requires CompareTargets(buffer, targets[i].name) < 0
      modifies `outf
      ensures Copies(goal)
    {
      OwedToKeep(buffer, inf, targets[i..], stdflag);
      AppendTwice(outf, [SEPARATOR], [buffer], Copying(inf, targets[i..], stdflag));
      Fputs(SEPARATOR);
      Fputs(buffer);
    }

    method ReplaceSection(ghost goal: seq<Line>) returns (eof: bool)
      requires i < |targets| && AtHeader(false) && Owes(false, goal)
      requires CompareTargets(buffer, targets[i].name) == 0
      modifies `outf, `inf, `buffer
      ensures AtHeader(eof) && Started(eof, goal) && |inf| <= old(|inf|)
    {
      ReplaceStep(outf, buffer, inf, targets, i, stdflag);
      Fputs(SEPARATOR);
      Fputs(buffer);
      eof := StartOver(goal);
    }

    /** The header of a section that is replaced has been written; its old lines are read over. */
    method StartOver(ghost goal: seq<Line>) returns (eof: bool)
      requires i < |targets|
      requires outf + (Body(targets[i], stdflag) + Rest(Sections(inf), targets[i + 1..], stdflag, true)) == goal
      modifies `inf, `buffer
      ensures AtHeader(eof) && Started(eof, goal) && |inf| <= old(|inf|)
    {
      eof := SkipBody();
    }

    /** The loop over the lines of the file, and then the targets that come after all of them. */
    method UpdateSections(ghost goal: seq<Line>)
      requires Copies(goal)
      modifies this
      ensures outf == goal
    {
      var ok := true;
      while ok && i < |targets|
        invariant if i == |targets| then outf == goal else Copies(goal)
        invariant !ok ==> inf == []
        decreases |inf|, if ok then 1 else 0
      {
        ok := Fgets();
        if ok {
          OneLine(goal);
        }
      }
      if i < |targets| {
        assert Copying([], targets[i..], stdflag) == Owed(true, "", [], targets[i..], stdflag);
        OutputRest(goal);
      }
    }

    /** The file is at its end: the targets that are left. */
    method OutputRest(ghost goal: seq<Line>)
      requires i <= |targets| && outf + Owed(true, "", [], targets[i..], stdflag) == goal
      modifies `outf, `i
      ensures outf == goal && i == |targets|
    {
      while i < |targets|
        invariant i <= |targets| && outf + Owed(true, "", [], targets[i..], stdflag) == goal
      {
        OutputLast(goal);
      }
      OwedAtEnd(true, "", [], stdflag);
    }

    /** A line is copied; a header that is not before the next target starts the loop over targets. */
    method OneLine(ghost goal: seq<Line>)
      requires i < |targets| && outf + Copying([buffer] + inf, targets[i..], stdflag) == goal
      modifies this
      ensures |inf| <= old(|inf|)
      ensures if i == |targets| then outf == goal else Copies(goal)
    {
      var cmp := if DEPENDENTS_OF <= buffer then CompareTargets(buffer, targets[i].name) else -1;
      CopyingLine(buffer, inf, targets[i..], stdflag);
      assert targets[i..][1..] == targets[i + 1..];
      if cmp < 0 {
        AppendOnce(outf, [buffer], Copying(inf, targets[i..], stdflag));
        Fputs(buffer);
      } else if cmp == 0 {
        ReplaceAt(goal);
      } else {
        InsertAt(goal);
      }
    }

    /** The target has the section in the buffer. */
    method ReplaceAt(ghost goal: seq<Line>)
      requires i < |targets|
      requires outf + ([buffer] + (Body(targets[i], stdflag) + Rest(Sections(inf), targets[i + 1..], stdflag, true))) == goal
      modifies this
      ensures |inf| <= old(|inf|)
      ensures if i == |targets| then outf == goal else Copies(goal)
    {
      AppendOnce(outf, [buffer], Body(targets[i], stdflag) + Rest(Sections(inf), targets[i + 1..], stdflag, true));
      Fputs(buffer);
      var eof := StartOver(goal);
      OutputTargets(eof, goal);
    }

    /** The target comes before the section in the buffer. */
    method InsertAt(ghost goal: seq<Line>)
      requires i < |targets| && IsHeader(buffer)
      requires outf + ([Header(targets[i].name)]
        + (Body(targets[i], stdflag) + Rest(Sections([buffer] + inf), targets[i + 1..], stdflag, true))) == goal
      modifies this
      ensures |inf| <= old(|inf|)
      ensures if i == |targets| then outf == goal else Copies(goal)
    {
      AppendOnce(outf, [Header(targets[i].name)],
                 Body(targets[i], stdflag) + Rest(Sections([buffer] + inf), targets[i + 1..], stdflag, true));
      Fputs(DEPENDENTS_OF + targets[i].name + ":\n");
      OutputTargets(false, goal);
    }

    method OutputLast(ghost goal: seq<Line>)
      requires i < |targets| && outf + Owed(true, "", [], targets[i..], stdflag) == goal
      modifies `outf, `i
      ensures i == old(i) + 1 && outf + Owed(true, "", [], targets[i..], stdflag) == goal
    {
      assert targets[i..][1..] == targets[i + 1..];
      OwedToInsert(true, "", [], targets[i..], stdflag);
      Lead(outf, true, Header(targets[i].name), Body(targets[i], stdflag), Owed(true, "", [], targets[i + 1..], stdflag));
      OutputTarget(targets[i], true);
      i := i + 1;
    }
  }

  /** What is owed for a line that has been read. */
  lemma {:induction false} CopyingLine(buffer: Line, inf: seq<Line>, news: seq<Target>, stdflag: bool)
    requires news != []
    ensures !IsHeader(buffer) || CompareTargets(buffer, news[0].name) < 0 ==>
      Copying([buffer] + inf, news, stdflag) == [buffer] + Copying(inf, news, stdflag)
    ensures IsHeader(buffer) && CompareTargets(buffer, news[0].name) == 0 ==>
      Copying([buffer] + inf, news, stdflag)
        == [buffer] + (Body(news[0], stdflag) + Rest(Sections(inf), news[1..], stdflag, true))
    ensures IsHeader(buffer) && CompareTargets(buffer, news[0].name) > 0 ==>
      Copying([buffer] + inf, news, stdflag)
        == [Header(news[0].name)] + (Body(news[0], stdflag) + Rest(Sections([buffer] + inf), news[1..], stdflag, true))
  {
    var olds := Sections([buffer] + inf);
    if !IsHeader(buffer) {
      assert ([buffer] + inf)[1..] == inf;
      AppendOnce([buffer], Preamble(inf), Rest(Sections(inf), news, stdflag, false));
    } else {
      HeaderFirst(buffer, inf);
      var cmp := CompareTargets(buffer, news[0].name);
      if cmp < 0 {
        KeepOld(olds, news, stdflag);
      } else if cmp == 0 {
        ReplaceOld(olds, news, stdflag);
      } else {
        InsertNew(olds, news, stdflag);
      }
    }
  }

  // ------------------------------------------------------------------ the whole update

  /** qsort with cmp_targets. */
  function InsertByName(t: Target, sorted: seq<Target>): seq<Target> {
    if sorted == [] || Strcmp(t.name, sorted[0].name) <= 0 then [t] + sorted
    else [sorted[0]] + InsertByName(t, sorted[1..])
  }

  function ByName(targets: seq<Target>): seq<Target> {
    if targets == [] then [] else InsertByName(targets[0], ByName(targets[1..]))
  }

  /** The file, if there is one, after the update. */
  function After(file: Option<seq<Line>>, targets: seq<Target>, stdflag: bool): Option<seq<Line>> {
    if targets == [] then file
    else Some(Updated(match file case None => [] case Some(lines) => lines, ByName(targets), stdflag))
  }

  /** update_database. */
  method UpdateDatabase(file: Option<seq<Line>>, targets: seq<Target>, stdflag: bool)
    returns (after: Option<seq<Line>>)
    ensures after == After(file, targets, stdflag)
  {
    if targets == [] { return file; }
    var news := ByName(targets);
    SortKeeps(targets);
    assert news[0..] == news;
    match file {
      case None =>
        var pass := new Pass(news, stdflag, []);
        ghost var goal := Updated([], news, stdflag);
        pass.OutputRest(goal);
        assert pass.outf == goal;
        after := Some(pass.outf);
      case Some(lines) =>
        var pass := new Pass(news, stdflag, lines);
        ghost var goal := Updated(lines, news, stdflag);
        assert [] + Copying(lines, news, stdflag) == goal;
        pass.UpdateSections(goal);
        assert pass.outf == goal;
        after := Some(pass.outf);
    }
  }

  lemma {:induction false} SortKeeps(targets: seq<Target>)
    ensures |ByName(targets)| == |targets| && multiset(ByName(targets)) == multiset(targets)
  {
    if targets != [] {
      SortKeeps(targets[1..]);
      InsertKeeps(targets[0], ByName(targets[1..]));
      assert targets == [targets[0]] + targets[1..];
    }
  }

  lemma {:induction false} InsertKeeps(t: Target, sorted: seq<Target>)
    ensures |InsertByName(t, sorted)| == |sorted| + 1
    ensures multiset(InsertByName(t, sorted)) == multiset(sorted) + multiset{t}
  {
    if sorted != [] && Strcmp(t.name, sorted[0].name) > 0 {
      InsertKeeps(t, sorted[1..]);
      assert sorted == [sorted[0]] + sorted[1..];
    }
  }

  // ------------------------------------------------------------------ what the merge is

  function Names(sections: seq<Section>): set<string> {
    if sections == [] then {}
    else (match NameIn(sections[0].header) case None => {} case Some(n) => {n}) + Names(sections[1..])
  }

  function TargetNames(news: seq<Target>): set<string> {
    if news == [] then {} else {news[0].name} + TargetNames(news[1..])
  }

  /** The sections are well formed, sorted by name, and each name has one. */
  ghost predicate Ascending(sections: seq<Section>) {
    sections == []
    || (NameIn(sections[0].header).Some? && Below(NameIn(sections[0].header).value, Names(sections[1..]))
        && Ascending(sections[1..]))
  }

  ghost predicate AscendingTargets(news: seq<Target>) {
    news == [] || (Below(news[0].name, TargetNames(news[1..])) && AscendingTargets(news[1..]))
  }

  ghost predicate Below(name: string, names: set<string>) {
    forall n :: n in names ==> Strcmp(name, n) < 0
  }

  lemma {:induction false} NamesAreNames(sections: seq<Section>)
    ensures forall n :: n in Names(sections) <==> exists k :: 0 <= k < |sections| && NameIn(sections[k].header) == Some(n)
  {
    if sections != [] {
      var rest := sections[1..];
      NamesAreNames(rest);
      forall n | n in Names(sections) ensures exists k :: 0 <= k < |sections| && NameIn(sections[k].header) == Some(n) {
        if n in Names(rest) {
          var k :| 0 <= k < |rest| && NameIn(rest[k].header) == Some(n);
          assert NameIn(sections[k + 1].header) == Some(n);
        } else {
          assert NameIn(sections[0].header) == Some(n);
        }
      }
    }
  }

  /** In other words: every section has a name, and the names come in the order of a dictionary. */
  ghost predicate InDictionaryOrder(sections: seq<Section>) {
    && (forall k :: 0 <= k < |sections| ==> NameIn(sections[k].header).Some?)
    && (forall i, j :: 0 <= i < j < |sections| ==>
          Earlier(NameIn(sections[i].header).value, NameIn(sections[j].header).value))
  }

  lemma {:induction false} AscendingExactly(sections: seq<Section>)
    ensures Ascending(sections) <==> InDictionaryOrder(sections)
  {
    if sections != [] {
      var first, rest := sections[0], sections[1..];
      AscendingExactly(rest);
      NamesAreNames(rest);
      assert sections == [first] + rest;
      if NameIn(first.header).Some? {
        var name := NameIn(first.header).value;
        forall n: string ensures Strcmp(name, n) < 0 <==> Earlier(name, n) { StrcmpIsDictionary(name, n); }
        if InDictionaryOrder(sections) {
          assert forall k :: 0 <= k < |rest| ==> rest[k] == sections[k + 1];
        }
      }
    }
  }

  /** The same of targets. */
  lemma {:induction false} AscendingTargetsExactly(news: seq<Target>)
    ensures AscendingTargets(news) <==> forall i, j :: 0 <= i < j < |news| ==> Earlier(news[i].name, news[j].name)
  {
    if news != [] {
      var name, rest := news[0].name, news[1..];
      AscendingTargetsExactly(rest);
      TargetNamesAreNames(rest);
      forall n: string ensures Strcmp(name, n) < 0 <==> Earlier(name, n) { StrcmpIsDictionary(name, n); }
      assert forall k :: 0 <= k < |rest| ==> rest[k] == news[k + 1];
    }
  }

  lemma {:induction false} TargetNamesAreNames(news: seq<Target>)
    ensures forall n :: n in TargetNames(news) <==> exists k :: 0 <= k < |news| && news[k].name == n
  {
    if news != [] {
      var rest := news[1..];
      TargetNamesAreNames(rest);
      forall n | n in TargetNames(news) ensures exists k :: 0 <= k < |news| && news[k].name == n {
        if n in TargetNames(rest) {
          var k :| 0 <= k < |rest| && rest[k].name == n;
          assert news[k + 1].name == n;
        } else {
          assert news[0].name == n;
        }
      }
    }
  }

  lemma {:induction false} MergeNames(olds: seq<Section>, news: seq<Target>, stdflag: bool)
    ensures Names(Merge(olds, news, stdflag)) == Names(olds) + TargetNames(news)
    decreases |olds| + |news|
  {
    if news != [] {
      var m := Merge(olds, news, stdflag);
      NameInHeader(news[0].name);
      if olds == [] {
        assert m[1..] == Merge([], news[1..], stdflag);
        MergeNames([], news[1..], stdflag);
      } else {
        var cmp := CompareTargets(olds[0].header, news[0].name);
        if cmp < 0 {
          assert m[1..] == Merge(olds[1..], news, stdflag);
          MergeNames(olds[1..], news, stdflag);
        } else if cmp == 0 {
          assert m[1..] == Merge(olds[1..], news[1..], stdflag);
          StrcmpIsOrder(NameIn(olds[0].header).value, news[0].name);
          MergeNames(olds[1..], news[1..], stdflag);
        } else {
          assert m[1..] == Merge(olds, news[1..], stdflag);
          MergeNames(olds, news[1..], stdflag);
        }
      }
    }
  }

  lemma BelowMore(a: string, b: string, names: set<string>)
    requires Strcmp(a, b) < 0 && Below(b, names)
    ensures Below(a, names + {b})
  {
    forall n | n in names ensures Strcmp(a, n) < 0 {
      StrcmpIsTransitive(a, b, n);
    }
  }

  /** The merged sections are in order exactly when those of the file were. */
  lemma {:induction false} MergeAscends(olds: seq<Section>, news: seq<Target>, stdflag: bool)
    requires AscendingTargets(news)
    ensures Ascending(Merge(olds, news, stdflag)) <==> Ascending(olds)
    decreases |olds| + |news|
  {
    if news != [] {
      var m := Merge(olds, news, stdflag);
      NameInHeader(news[0].name);
      if olds == [] {
        assert m[1..] == Merge([], news[1..], stdflag);
        MergeNames([], news[1..], stdflag);
        MergeAscends([], news[1..], stdflag);
      } else {
        MergeAscendsFrom(olds, news, stdflag);
      }
    }
  }

  lemma {:induction false} MergeAscendsFrom(olds: seq<Section>, news: seq<Target>, stdflag: bool)
    requires AscendingTargets(news) && olds != [] && news != []
    ensures Ascending(Merge(olds, news, stdflag)) <==> Ascending(olds)
    decreases |olds| + |news|, 0
  {
    var m := Merge(olds, news, stdflag);
    var cmp := CompareTargets(olds[0].header, news[0].name);
    var was := NameIn(olds[0].header);
    NameInHeader(news[0].name);
    if cmp < 0 {
      assert m[1..] == Merge(olds[1..], news, stdflag);
      MergeNames(olds[1..], news, stdflag);
      MergeAscends(olds[1..], news, stdflag);
      if was.Some? {
        BelowMore(was.value, news[0].name, TargetNames(news[1..]));
      }
    } else if cmp == 0 {
      assert m[1..] == Merge(olds[1..], news[1..], stdflag);
      StrcmpIsOrder(was.value, news[0].name);
      MergeNames(olds[1..], news[1..], stdflag);
      MergeAscends(olds[1..], news[1..], stdflag);
    } else {
      assert m[1..] == Merge(olds, news[1..], stdflag);
      StrcmpIsOrder(was.value, news[0].name);
      MergeNames(olds, news[1..], stdflag);
      MergeAscends(olds, news[1..], stdflag);
      if Ascending(olds) {
        BelowMore(news[0].name, was.value, Names(olds[1..]));
      }
    }
  }

  /** So merging targets that come in the order of a dictionary keeps that order in the file, and does not
    * make it. */
  lemma MergeKeepsOrder(olds: seq<Section>, news: seq<Target>, stdflag: bool)
    requires forall i, j :: 0 <= i < j < |news| ==> Earlier(news[i].name, news[j].name)
    ensures InDictionaryOrder(Merge(olds, news, stdflag)) <==> InDictionaryOrder(olds)
  {
    AscendingTargetsExactly(news);
    MergeAscends(olds, news, stdflag);
    AscendingExactly(olds);
    AscendingExactly(Merge(olds, news, stdflag));
  }

  /** The lines of the first section with a name. */
  function Lookup(sections: seq<Section>, name: string): Option<seq<Line>> {
    if sections == [] then None
    else if NameIn(sections[0].header) == Some(name) then Some(sections[0].body)
    else Lookup(sections[1..], name)
  }

  function LookupTarget(news: seq<Target>, name: string): Option<Target> {
    if news == [] then None
    else if news[0].name == name then Some(news[0])
    else LookupTarget(news[1..], name)
  }

  predicate IsLast(sections: seq<Section>, name: string) {
    sections != [] && NameIn(sections[|sections| - 1].header) == Some(name)
  }

  function Separator(needed: bool): seq<Line> {
    if needed then [SEPARATOR] else []
  }

  /** The lines that there have to be for a name after the merge: those of a target, with a separator
    * unless its section is the last one; or those the file had, with a separator exactly if the section
    * was the last one and is not any more. */
  function Expected(olds: seq<Section>, news: seq<Target>, stdflag: bool, last: bool, name: string): Option<seq<Line>> {
    match LookupTarget(news, name)
    case Some(t) => Some(Body(t, stdflag) + Separator(!last))
    case None =>
      match Lookup(olds, name)
      case Some(lines) => Some(lines + Separator(IsLast(olds, name) && !last))
      case None => None
  }

  /** A name that is first is last only if there is no other. */
  lemma {:induction false} OfFirst(first: Section, rest: seq<Section>, name: string)
    requires Ascending([first] + rest) && NameIn(first.header) == Some(name)
    ensures Lookup([first] + rest, name) == Some(first.body)
    ensures IsLast([first] + rest, name) <==> rest == []
  {
    assert ([first] + rest)[1..] == rest;
    if rest != [] && IsLast(rest, name) {
      LastIsIn(rest, name);
      StrcmpIsOrder(name, name);
    }
  }

  lemma {:induction false} LastIsIn(sections: seq<Section>, name: string)
    requires IsLast(sections, name)
    ensures name in Names(sections)
  {
    if |sections| > 1 { LastIsIn(sections[1..], name); }
  }

  lemma {:induction false} OfRest(first: Section, rest: seq<Section>, name: string)
    requires NameIn(first.header) != Some(name)
    ensures Lookup([first] + rest, name) == Lookup(rest, name)
    ensures IsLast([first] + rest, name) == IsLast(rest, name)
  {
    assert ([first] + rest)[1..] == rest;
  }

  lemma {:induction false} LookupTargetIsIn(news: seq<Target>, name: string)
    ensures LookupTarget(news, name).Some? <==> name in TargetNames(news)
  {
    if news != [] {
      LookupTargetIsIn(news[1..], name);
    }
  }

  /** New lines replace old ones, and all other sections stay. */
  lemma {:induction false} MergeReplaces(olds: seq<Section>, news: seq<Target>, stdflag: bool, name: string)
    requires Ascending(olds) && AscendingTargets(news)
    ensures var m := Merge(olds, news, stdflag); Lookup(m, name) == Expected(olds, news, stdflag, IsLast(m, name), name)
    decreases |olds| + |news|
  {
    if news == [] {
      LookupWithout(olds, stdflag, name);
    } else {
      var m := Merge(olds, news, stdflag);
      NameInHeader(news[0].name);
      MergeAscends(olds, news, stdflag);
      if olds == [] {
        MergeIsEmpty([], news[1..], stdflag);
        InsertedFirst(olds, news, stdflag, name);
      } else {
        var cmp := CompareTargets(olds[0].header, news[0].name);
        StrcmpIsOrder(NameIn(olds[0].header).value, news[0].name);
        if cmp < 0 {
          KeptFirst(olds, news, stdflag, name);
        } else if cmp == 0 {
          ReplacedFirst(olds, news, stdflag, name);
        } else {
          InsertedFirst(olds, news, stdflag, name);
        }
      }
    }
  }

  lemma LookupWithout(olds: seq<Section>, stdflag: bool, name: string)
    ensures Lookup(olds, name) == Expected(olds, [], stdflag, IsLast(olds, name), name)
  {
    var found := Lookup(olds, name);
    if found.Some? { assert found.value + [] == found.value; }
  }

  /** The first of the merged sections is new, or replaces one: what holds for the rest holds for all. */
  lemma {:induction false} AfterFresh(olds: seq<Section>, olds': seq<Section>, news: seq<Target>, stdflag: bool,
      first: Section, rest: seq<Section>, name: string)
    requires news != [] && first.body == Body(news[0], stdflag) + Separator(rest != [])
    requires NameIn(first.header) == Some(news[0].name) && Ascending([first] + rest)
    requires name != news[0].name ==>
      && Lookup(olds', name) == Lookup(olds, name) && IsLast(olds', name) == IsLast(olds, name)
      && Lookup(rest, name) == Expected(olds', news[1..], stdflag, IsLast(rest, name), name)
    ensures Lookup([first] + rest, name) == Expected(olds, news, stdflag, IsLast([first] + rest, name), name)
  {
    if name == news[0].name {
      OfFirst(first, rest, name);
    } else {
      OfRest(first, rest, name);
      ExpectedOfRest(olds, olds', news, stdflag, IsLast(rest, name), name);
    }
  }

  lemma {:induction false} ExpectedOfRest(olds: seq<Section>, olds': seq<Section>, news: seq<Target>, stdflag: bool,
      last: bool, name: string)
    requires news != [] && name != news[0].name
    requires Lookup(olds', name) == Lookup(olds, name) && IsLast(olds', name) == IsLast(olds, name)
    ensures Expected(olds', news[1..], stdflag, last, name) == Expected(olds, news, stdflag, last, name)
  {
  }

  /** The first of the merged sections is kept. */
  lemma {:induction false} AfterKept(olds: seq<Section>, news: seq<Target>, stdflag: bool, rest: seq<Section>, name: string)
    requires olds != [] && Ascending(olds) && rest != [] && news != [] && AscendingTargets(news)
    requires NameIn(olds[0].header).Some? && Strcmp(NameIn(olds[0].header).value, news[0].name) < 0
    requires var first := Section(olds[0].header, olds[0].body + Separator(|olds| == 1)); Ascending([first] + rest)
    requires Some(name) != NameIn(olds[0].header) ==>
      Lookup(rest, name) == Expected(olds[1..], news, stdflag, IsLast(rest, name), name)
    ensures var first := Section(olds[0].header, olds[0].body + Separator(|olds| == 1));
      Lookup([first] + rest, name) == Expected(olds, news, stdflag, IsLast([first] + rest, name), name)
  {
    var first := Section(olds[0].header, olds[0].body + Separator(|olds| == 1));
    assert olds == [olds[0]] + olds[1..];
    if Some(name) == NameIn(olds[0].header) {
      OfFirst(first, rest, name);
      OfFirst(olds[0], olds[1..], name);
      NotATarget(news, name);
    } else {
      OfRest(first, rest, name);
      OfRest(olds[0], olds[1..], name);
    }
  }

  lemma {:induction false} InsertedFirst(olds: seq<Section>, news: seq<Target>, stdflag: bool, name: string)
    requires Ascending(olds) && AscendingTargets(news) && news != [] && Ascending(Merge(olds, news, stdflag))
    requires olds == [] || CompareTargets(olds[0].header, news[0].name) > 0
    ensures var m := Merge(olds, news, stdflag); Lookup(m, name) == Expected(olds, news, stdflag, IsLast(m, name), name)
    decreases |olds| + |news|, 0
  {
    var first := Fresh(Header(news[0].name), news[0], stdflag, olds != [] || |news| > 1);
    var rest := Merge(olds, news[1..], stdflag);
    assert Merge(olds, news, stdflag) == [first] + rest;
    NameInHeader(news[0].name);
    MergeIsEmpty(olds, news[1..], stdflag);
    MergeReplaces(olds, news[1..], stdflag, name);
    AfterFresh(olds, olds, news, stdflag, first, rest, name);
  }

  lemma {:induction false} ReplacedFirst(olds: seq<Section>, news: seq<Target>, stdflag: bool, name: string)
    requires Ascending(olds) && AscendingTargets(news) && news != [] && Ascending(Merge(olds, news, stdflag))
    requires olds != [] && NameIn(olds[0].header) == Some(news[0].name)
    requires CompareTargets(olds[0].header, news[0].name) == 0
    ensures var m := Merge(olds, news, stdflag); Lookup(m, name) == Expected(olds, news, stdflag, IsLast(m, name), name)
    decreases |olds| + |news|, 0
  {
    var first := Fresh(olds[0].header, news[0], stdflag, |olds| > 1 || |news| > 1);
    var rest := Merge(olds[1..], news[1..], stdflag);
    MergeReplaces(olds[1..], news[1..], stdflag, name);
    assert Merge(olds, news, stdflag) == [first] + rest;
    ReplacedLines(olds, news, stdflag, first, rest, name) by {
      MergeIsEmpty(olds[1..], news[1..], stdflag);
    }
  }

  lemma {:induction false} ReplacedLines(olds: seq<Section>, news: seq<Target>, stdflag: bool,
      first: Section, rest: seq<Section>, name: string)
    requires olds != [] && news != [] && NameIn(olds[0].header) == Some(news[0].name)
    requires rest == [] <==> |olds| == 1 && |news| == 1
    requires first == Fresh(olds[0].header, news[0], stdflag, |olds| > 1 || |news| > 1) && Ascending([first] + rest)
    requires Lookup(rest, name) == Expected(olds[1..], news[1..], stdflag, IsLast(rest, name), name)
    ensures Lookup([first] + rest, name) == Expected(olds, news, stdflag, IsLast([first] + rest, name), name)
  {
    assert olds == [olds[0]] + olds[1..];
    if name != news[0].name { OfRest(olds[0], olds[1..], name); }
    AfterFresh(olds, olds[1..], news, stdflag, first, rest, name);
  }

  lemma {:induction false} KeptFirst(olds: seq<Section>, news: seq<Target>, stdflag: bool, name: string)
    requires Ascending(olds) && AscendingTargets(news) && news != [] && Ascending(Merge(olds, news, stdflag))
    requires olds != [] && CompareTargets(olds[0].header, news[0].name) < 0
    ensures var m := Merge(olds, news, stdflag); Lookup(m, name) == Expected(olds, news, stdflag, IsLast(m, name), name)
    decreases |olds| + |news|, 0
  {
    var first := Section(olds[0].header, olds[0].body + Separator(|olds| == 1));
    var rest := Merge(olds[1..], news, stdflag);
    assert olds[0].body + [] == olds[0].body;
    assert Merge(olds, news, stdflag) == [first] + rest;
    MergeIsEmpty(olds[1..], news, stdflag);
    MergeReplaces(olds[1..], news, stdflag, name);
    AfterKept(olds, news, stdflag, rest, name);
  }

  /** A name before the first target is not that of a target. */
  lemma {:induction false} NotATarget(news: seq<Target>, name: string)
    requires AscendingTargets(news) && news != [] && Strcmp(name, news[0].name) < 0
    ensures LookupTarget(news, name) == None
  {
    BelowMore(name, news[0].name, TargetNames(news[1..]));
    StrcmpIsOrder(name, name);
    LookupTargetIsIn(news, name);
  }

  /** All sections but the last end with a separator. */
  predicate Separated(sections: seq<Section>) {
    |sections| <= 1
    || (sections[0].body != [] && sections[0].body[|sections[0].body| - 1] == SEPARATOR && Separated(sections[1..]))
  }

  lemma {:induction false} MergeIsSeparated(olds: seq<Section>, news: seq<Target>, stdflag: bool)
    requires Separated(olds)
    ensures Separated(Merge(olds, news, stdflag))
    ensures Merge(olds, news, stdflag) == [] <==> olds == [] && news == []
    decreases |olds| + |news|
  {
    if news != [] {
      var m := Merge(olds, news, stdflag);
      if olds == [] {
        assert m[1..] == Merge([], news[1..], stdflag);
        MergeIsSeparated([], news[1..], stdflag);
      } else {
        var cmp := CompareTargets(olds[0].header, news[0].name);
        if cmp < 0 {
          assert m[1..] == Merge(olds[1..], news, stdflag);
          MergeIsSeparated(olds[1..], news, stdflag);
        } else if cmp == 0 {
          assert m[1..] == Merge(olds[1..], news[1..], stdflag);
          MergeIsSeparated(olds[1..], news[1..], stdflag);
        } else {
          assert m[1..] == Merge(olds, news[1..], stdflag);
          MergeIsSeparated(olds, news[1..], stdflag);
        }
      }
    }
  }

  // ------------------------------------------------------------------ reading the file back

  predicate NoHeader(lines: seq<Line>) {
    forall k :: 0 <= k < |lines| ==> !IsHeader(lines[k])
  }

  /** Sections that are read back as they were written. */
  predicate Readable(sections: seq<Section>) {
    forall k :: 0 <= k < |sections| ==> IsHeader(sections[k].header) && NoHeader(sections[k].body)
  }

  /** No line that is written for the targets looks like a header. */
  predicate Plain(news: seq<Target>, stdflag: bool) {
    forall k :: 0 <= k < |news| ==> NoHeader(Body(news[k], stdflag))
  }

  lemma {:induction false} ReadBack(pre: seq<Line>, sections: seq<Section>)
    requires NoHeader(pre) && Readable(sections)
    ensures Preamble(pre + Text(sections)) == pre && Sections(pre + Text(sections)) == sections
    decreases |sections|, |pre|
  {
    var lines := pre + Text(sections);
    if pre != [] {
      assert lines[1..] == pre[1..] + Text(sections);
      ReadBack(pre[1..], sections);
      assert pre == [pre[0]] + pre[1..];
    } else {
      assert lines == Text(sections);
      if sections != [] {
        assert lines[1..] == sections[0].body + Text(sections[1..]);
        ReadBack(sections[0].body, sections[1..]);
        assert sections == [sections[0]] + sections[1..];
      }
    }
  }

  lemma {:induction false} PreambleHasNoHeader(lines: seq<Line>)
    ensures NoHeader(Preamble(lines))
  {
    if lines != [] && !IsHeader(lines[0]) {
      PreambleHasNoHeader(lines[1..]);
    }
  }

  lemma {:induction false} SectionsAreReadable(lines: seq<Line>)
    ensures Readable(Sections(lines))
  {
    if lines != [] {
      SectionsAreReadable(lines[1..]);
      if IsHeader(lines[0]) {
        PreambleHasNoHeader(lines[1..]);
      }
    }
  }

  lemma {:induction false} MergeIsReadable(olds: seq<Section>, news: seq<Target>, stdflag: bool)
    requires Readable(olds) && Plain(news, stdflag)
    ensures Readable(Merge(olds, news, stdflag))
    decreases |olds| + |news|
  {
    if news != [] {
      if olds == [] {
        MergeIsReadable([], news[1..], stdflag);
      } else {
        var cmp := CompareTargets(olds[0].header, news[0].name);
        if cmp < 0 {
          MergeIsReadable(olds[1..], news, stdflag);
        } else if cmp == 0 {
          MergeIsReadable(olds[1..], news[1..], stdflag);
        } else {
          MergeIsReadable(olds, news[1..], stdflag);
        }
      }
    }
  }

  /** How many lines look like a header. */
  function Headers(lines: seq<Line>): nat {
    if lines == [] then 0 else (if IsHeader(lines[0]) then 1 else 0) + Headers(lines[1..])
  }

  /** How many of the lines that are written for the targets do. */
  function Strays(news: seq<Target>, stdflag: bool): nat {
    if news == [] then 0 else Headers(Body(news[0], stdflag)) + Strays(news[1..], stdflag)
  }

  predicate Headed(sections: seq<Section>) {
    forall k :: 0 <= k < |sections| ==> IsHeader(sections[k].header)
  }

  lemma {:induction false} HeadersOfBoth(a: seq<Line>, b: seq<Line>)
    ensures Headers(a + b) == Headers(a) + Headers(b)
  {
    if a == [] {
      assert a + b == b;
    } else {
      HeadersOfBoth(a[1..], b);
      assert (a + b)[1..] == a[1..] + b;
    }
  }

  lemma {:induction false} HeadersAreSections(lines: seq<Line>)
    ensures Headers(lines) == |Sections(lines)| && Headed(Sections(lines))
  {
    if lines != [] { HeadersAreSections(lines[1..]); }
  }

  lemma {:induction false} NoHeaderIsNone(lines: seq<Line>)
    ensures NoHeader(lines) <==> Headers(lines) == 0
  {
    if lines != [] {
      NoHeaderIsNone(lines[1..]);
      assert lines == [lines[0]] + lines[1..];
    }
  }

  lemma {:induction false} PlainHasNoStrays(news: seq<Target>, stdflag: bool)
    ensures Plain(news, stdflag) <==> Strays(news, stdflag) == 0
  {
    if news != [] {
      PlainHasNoStrays(news[1..], stdflag);
      NoHeaderIsNone(Body(news[0], stdflag));
      assert news == [news[0]] + news[1..];
    }
  }

  lemma {:induction false} HeadersOfFirst(first: Section, rest: seq<Section>)
    requires IsHeader(first.header)
    ensures Headers(Text([first] + rest)) == 1 + Headers(first.body) + Headers(Text(rest))
  {
    assert ([first] + rest)[1..] == rest;
    var text := [first.header] + first.body;
    assert text[1..] == first.body;
    HeadersOfBoth(text, Text(rest));
  }

  lemma HeadersOfFresh(header: Line, t: Target, stdflag: bool, more: bool, rest: seq<Section>)
    requires IsHeader(header)
    ensures Headers(Text([Fresh(header, t, stdflag, more)] + rest)) >= 1 + Headers(Body(t, stdflag)) + Headers(Text(rest))
  {
    var first := Fresh(header, t, stdflag, more);
    HeadersOfFirst(first, rest);
    HeadersOfBoth(Body(t, stdflag), if more then [SEPARATOR] else []);
  }

  /** No section is lost in the merge, and every line that looks like a header is one more. */
  lemma {:induction false} MergeHasHeaders(olds: seq<Section>, news: seq<Target>, stdflag: bool)
    requires Headed(olds)
    ensures |Merge(olds, news, stdflag)| >= |olds|
    ensures Headers(Text(Merge(olds, news, stdflag))) >= |Merge(olds, news, stdflag)| + Strays(news, stdflag)
    decreases |olds| + |news|
  {
    if news == [] {
      if olds != [] {
        MergeHasHeaders(olds[1..], [], stdflag);
        HeadersOfFirst(olds[0], olds[1..]);
        assert olds == [olds[0]] + olds[1..];
      }
    } else if olds == [] {
      MergeHasHeaders([], news[1..], stdflag);
      HeadersOfFresh(Header(news[0].name), news[0], stdflag, |news| > 1, Merge([], news[1..], stdflag));
    } else {
      var cmp := CompareTargets(olds[0].header, news[0].name);
      if cmp < 0 {
        MergeHasHeaders(olds[1..], news, stdflag);
        HeadersOfFirst(if |olds| > 1 then olds[0] else Section(olds[0].header, olds[0].body + [SEPARATOR]),
                       Merge(olds[1..], news, stdflag));
      } else if cmp == 0 {
        MergeHasHeaders(olds[1..], news[1..], stdflag);
        HeadersOfFresh(olds[0].header, news[0], stdflag, |olds| > 1 || |news| > 1, Merge(olds[1..], news[1..], stdflag));
      } else {
        MergeHasHeaders(olds, news[1..], stdflag);
        HeadersOfFresh(Header(news[0].name), news[0], stdflag, true, Merge(olds, news[1..], stdflag));
      }
    }
  }

  /** So the file that is written has those sections, and one more for each such line. */
  lemma UpdatedHasSections(lines: seq<Line>, news: seq<Target>, stdflag: bool)
    ensures |Sections(Updated(lines, news, stdflag))| >= |Merge(Sections(lines), news, stdflag)| + Strays(news, stdflag)
    ensures |Sections(Updated(lines, news, stdflag))| >= |Sections(lines)| + Strays(news, stdflag)
  {
    var olds := Sections(lines);
    HeadersAreSections(lines);
    HeadersAreSections(Updated(lines, news, stdflag));
    HeadersOfBoth(Preamble(lines), Rest(olds, news, stdflag, false));
    HeadersOfBoth(Sep(olds, news, false), Text(Merge(olds, news, stdflag)));
    MergeHasHeaders(olds, news, stdflag);
  }

  /** The file that is written has the merged sections exactly if no line written for a target looks
    * like a header.  It then has the preamble it had; only a file without sections has a separator
    * after it. */
  lemma {:induction false} UpdatedReadsBack(lines: seq<Line>, news: seq<Target>, stdflag: bool)
    ensures Sections(Updated(lines, news, stdflag)) == Merge(Sections(lines), news, stdflag) <==> Plain(news, stdflag)
    ensures Plain(news, stdflag) ==>
      Preamble(Updated(lines, news, stdflag)) == Preamble(lines) + Sep(Sections(lines), news, false)
  {
    var olds := Sections(lines);
    if Plain(news, stdflag) {
      PreambleHasNoHeader(lines);
      SectionsAreReadable(lines);
      MergeIsReadable(olds, news, stdflag);
      AppendOnce(Preamble(lines), Sep(olds, news, false), Text(Merge(olds, news, stdflag)));
      ReadBack(Preamble(lines) + Sep(olds, news, false), Merge(olds, news, stdflag));
    } else {
      UpdatedHasSections(lines, news, stdflag);
      PlainHasNoStrays(news, stdflag);
    }
  }

  predicate DifferentNames(targets: seq<Target>) {
    targets == [] || (targets[0].name !in TargetNames(targets[1..]) && DifferentNames(targets[1..]))
  }

  lemma {:induction false} InsertAscends(t: Target, sorted: seq<Target>)
    requires AscendingTargets(sorted) && t.name !in TargetNames(sorted)
    ensures AscendingTargets(InsertByName(t, sorted))
    ensures TargetNames(InsertByName(t, sorted)) == {t.name} + TargetNames(sorted)
  {
    if sorted == [] {
      assert ([t] + sorted)[1..] == [];
    } else {
      StrcmpIsOrder(t.name, sorted[0].name);
      if Strcmp(t.name, sorted[0].name) <= 0 {
        assert ([t] + sorted)[1..] == sorted;
        BelowMore(t.name, sorted[0].name, TargetNames(sorted[1..]));
      } else {
        InsertAscends(t, sorted[1..]);
        assert ([sorted[0]] + InsertByName(t, sorted[1..]))[1..] == InsertByName(t, sorted[1..]);
      }
    }
  }

  lemma {:induction false} SortAscends(targets: seq<Target>)
    requires DifferentNames(targets)
    ensures AscendingTargets(ByName(targets)) && TargetNames(ByName(targets)) == TargetNames(targets)
  {
    if targets != [] {
      SortAscends(targets[1..]);
      InsertAscends(targets[0], ByName(targets[1..]));
    }
  }

  /** Sorting keeps the targets, and what is found of them. */
  lemma {:induction false} SortedIsPlain(targets: seq<Target>, stdflag: bool)
    ensures Plain(ByName(targets), stdflag) <==> Plain(targets, stdflag)
    ensures |ByName(targets)| == |targets|
  {
    SortKeeps(targets);
    if Plain(targets, stdflag) {
      PlainOfSome(targets, ByName(targets), stdflag);
    }
    if Plain(ByName(targets), stdflag) {
      PlainOfSome(ByName(targets), targets, stdflag);
    }
  }

  lemma PlainOfSome(all: seq<Target>, some: seq<Target>, stdflag: bool)
    requires multiset(some) == multiset(all) && Plain(all, stdflag)
    ensures Plain(some, stdflag)
  {
    forall k | 0 <= k < |some| ensures NoHeader(Body(some[k], stdflag)) {
      assert some[k] in multiset(all);
      var j :| 0 <= j < |all| && all[j] == some[k];
    }
  }

  lemma {:induction false} LookupSorted(targets: seq<Target>, name: string)
    requires DifferentNames(targets)
    ensures LookupTarget(ByName(targets), name) == LookupTarget(targets, name)
  {
    if targets != [] {
      LookupSorted(targets[1..], name);
      SortAscends(targets[1..]);
      LookupInserted(targets[0], ByName(targets[1..]), name);
    }
  }

  lemma {:induction false} LookupInserted(t: Target, sorted: seq<Target>, name: string)
    requires t.name !in TargetNames(sorted)
    ensures LookupTarget(InsertByName(t, sorted), name) == if name == t.name then Some(t) else LookupTarget(sorted, name)
  {
    if sorted == [] || Strcmp(t.name, sorted[0].name) <= 0 {
      assert ([t] + sorted)[1..] == sorted;
    } else {
      LookupInserted(t, sorted[1..], name);
      assert ([sorted[0]] + InsertByName(t, sorted[1..]))[1..] == InsertByName(t, sorted[1..]);
    }
  }

  /** The file after the update is read back as the sections of the file and the targets', merged,
    * exactly if no line written for a target looks like a header; it is then their sorted union. */
  lemma {:induction false} UpdateIsUnion(lines: seq<Line>, targets: seq<Target>, stdflag: bool, name: string)
    requires targets != [] && DifferentNames(targets)
    ensures var after := After(Some(lines), targets, stdflag).value;
      Sections(after) == Merge(Sections(lines), ByName(targets), stdflag) <==> Plain(targets, stdflag)
    ensures var after := After(Some(lines), targets, stdflag).value;
      Plain(targets, stdflag) ==>
      && Names(Sections(after)) == Names(Sections(lines)) + TargetNames(targets)
      && (InDictionaryOrder(Sections(after)) <==> InDictionaryOrder(Sections(lines)))
      && (Separated(Sections(lines)) ==> Separated(Sections(after)))
      && Preamble(after) == Preamble(lines) + (if Sections(lines) == [] then [SEPARATOR] else [])
      && (InDictionaryOrder(Sections(lines)) ==>
           Lookup(Sections(after), name) == Expected(Sections(lines), targets, stdflag, IsLast(Sections(after), name), name))
  {
    var olds, news := Sections(lines), ByName(targets);
    SortAscends(targets);
    SortedIsPlain(targets, stdflag);
    UpdatedReadsBack(lines, news, stdflag);
    MergeNames(olds, news, stdflag);
    MergeAscends(olds, news, stdflag);
    AscendingExactly(olds);
    AscendingExactly(Merge(olds, news, stdflag));
    if Separated(olds) {
      MergeIsSeparated(olds, news, stdflag);
    }
    if Ascending(olds) {
      MergeReplaces(olds, news, stdflag, name);
      LookupSorted(targets, name);
    }
  }

  // ------------------------------------------------------------------ updating twice

  /** A merged section that stands for the first target is replaced by itself. */
  lemma {:induction false} FreshAgain(header: Line, more: bool, rest: seq<Section>, news: seq<Target>, stdflag: bool)
    requires news != [] && NameIn(header) == Some(news[0].name) && (more <==> rest != [])
    requires |news| > 1 ==> rest != []
    ensures Merge([Fresh(header, news[0], stdflag, more)] + rest, news, stdflag)
         == [Fresh(header, news[0], stdflag, more)] + Merge(rest, news[1..], stdflag)
  {
    var m := [Fresh(header, news[0], stdflag, more)] + rest;
    StrcmpIsOrder(news[0].name, news[0].name);
    assert m[1..] == rest && m[0].header == header;
  }

  lemma {:induction false} KeptAgain(first: Section, rest: seq<Section>, news: seq<Target>, stdflag: bool)
    requires news != [] && rest != [] && CompareTargets(first.header, news[0].name) < 0
    ensures Merge([first] + rest, news, stdflag) == [first] + Merge(rest, news, stdflag)
  {
    var m := [first] + rest;
    assert m[1..] == rest && m[0] == first;
  }

  lemma {:induction false} MergeTwice(olds: seq<Section>, news: seq<Target>, stdflag: bool)
    ensures Merge(Merge(olds, news, stdflag), news, stdflag) == Merge(olds, news, stdflag)
    decreases |olds| + |news|
  {
    if news != [] {
      NameInHeader(news[0].name);
      if olds == [] {
        MergeIsEmpty([], news[1..], stdflag);
        FreshAgain(Header(news[0].name), |news| > 1, Merge([], news[1..], stdflag), news, stdflag);
        MergeTwice([], news[1..], stdflag);
      } else {
        MergeTwiceFrom(olds, news, stdflag);
      }
    }
  }

  lemma {:induction false} MergeTwiceFrom(olds: seq<Section>, news: seq<Target>, stdflag: bool)
    requires olds != [] && news != []
    ensures Merge(Merge(olds, news, stdflag), news, stdflag) == Merge(olds, news, stdflag)
    decreases |olds| + |news|, 0
  {
    NameInHeader(news[0].name);
    var cmp := CompareTargets(olds[0].header, news[0].name);
    if cmp < 0 {
      MergeIsEmpty(olds[1..], news, stdflag);
      KeptAgain(if |olds| > 1 then olds[0] else Section(olds[0].header, olds[0].body + [SEPARATOR]),
                Merge(olds[1..], news, stdflag), news, stdflag);
      MergeTwice(olds[1..], news, stdflag);
    } else if cmp == 0 {
      MergeIsEmpty(olds[1..], news[1..], stdflag);
      StrcmpIsOrder(NameIn(olds[0].header).value, news[0].name);
      FreshAgain(olds[0].header, |olds| > 1 || |news| > 1, Merge(olds[1..], news[1..], stdflag), news, stdflag);
      MergeTwice(olds[1..], news[1..], stdflag);
    } else {
      MergeIsEmpty(olds, news[1..], stdflag);
      FreshAgain(Header(news[0].name), true, Merge(olds, news[1..], stdflag), news, stdflag);
      MergeTwice(olds, news[1..], stdflag);
    }
  }

  lemma {:induction false} MergeIsEmpty(olds: seq<Section>, news: seq<Target>, stdflag: bool)
    ensures Merge(olds, news, stdflag) == [] <==> olds == [] && news == []
  {
  }

  /** Merging the same targets again leaves the file as it is. */
  lemma {:induction false} UpdateTwice(file: Option<seq<Line>>, targets: seq<Target>, stdflag: bool)
    requires Plain(targets, stdflag)
    ensures After(After(file, targets, stdflag), targets, stdflag) == After(file, targets, stdflag)
  {
    if targets != [] {
      var news := ByName(targets);
      SortedIsPlain(targets, stdflag);
      var lines := match file case None => [] case Some(lines) => lines;
      var olds := Sections(lines);
      UpdatedReadsBack(lines, news, stdflag);
      MergeTwice(olds, news, stdflag);
      MergeIsEmpty(olds, news, stdflag);
      var again := Sep(Merge(olds, news, stdflag), news, false);
      AppendOnce(Preamble(lines), Sep(olds, news, false), Text(Merge(olds, news, stdflag)));
      assert again == [] && again + Text(Merge(olds, news, stdflag)) == Text(Merge(olds, news, stdflag));
    }
  }

  /** And it does so only if no line written for a target looks like a header: each one that does is
    * a section more in the file every time. */
  lemma TwiceIsOnce(file: Option<seq<Line>>, targets: seq<Target>, stdflag: bool)
    ensures After(After(file, targets, stdflag), targets, stdflag) == After(file, targets, stdflag)
       <==> Plain(targets, stdflag)
  {
    if Plain(targets, stdflag) {
      UpdateTwice(file, targets, stdflag);
    } else {
      var news := ByName(targets);
      SortedIsPlain(targets, stdflag);
      PlainHasNoStrays(news, stdflag);
      UpdatedHasSections(After(file, targets, stdflag).value, news, stdflag);
    }
  }

  predicate NoBlank(name: string) {
    forall k :: 0 <= k < |name| ==> name[k] != ' '
  }

  /** Names end at a blank when they are read, so that no line written for one looks like a header. */
  lemma {:induction false} NoBlankIsPlain(t: Target, stdflag: bool)
    requires NoBlank(t.name)
    ensures NoHeader(Body(t, stdflag))
  {
    CurLinesArePlain(t.name, t.curdeps);
    StdLinesArePlain(t.name, t.stddeps);
  }

  lemma Differs(line: Line, k: nat)
    requires k < |DEPENDENTS_OF| && k < |line| && line[k] != DEPENDENTS_OF[k]
    ensures !IsHeader(line)
  {
  }

  lemma {:induction false} CurLinesArePlain(name: string, deps: seq<string>)
    requires NoBlank(name)
    ensures NoHeader(CurLines(name, deps))
  {
    if deps != [] {
      CurLinesArePlain(name, deps[..|deps| - 1]);
      var line := name + ": " + deps[|deps| - 1] + "\n";
      Differs(line, if |name| == 0 then 0 else 1);
    }
  }

  lemma {:induction false} StdLinesArePlain(name: string, deps: seq<string>)
    requires NoBlank(name)
    ensures NoHeader(StdLines(name, deps))
  {
    if deps != [] {
      StdLinesArePlain(name, deps[..|deps| - 1]);
      var line := "# " + name + ": <" + deps[|deps| - 1] + ">\n";
      Differs(line, if |name| < 10 then 2 + |name| else 12);
    }
  }

  /** So targets whose names have no blank are plain. */
  lemma NamesWithoutBlanks(targets: seq<Target>, stdflag: bool)
    requires forall k :: 0 <= k < |targets| ==> NoBlank(targets[k].name)
    ensures Plain(targets, stdflag)
  {
    forall k | 0 <= k < |targets| ensures NoHeader(Body(targets[k], stdflag)) {
      NoBlankIsPlain(targets[k], stdflag);
    }
  }

  /** A name that is read from a dependency file ends at a blank.  But where the file starts with a
    * colon, the name is made from the file's own name, which may have blanks: one like this makes a
    * line that is read as a header, and stays in the file when the target is merged again. */
  lemma BlankNamesAddLines()
    ensures var t := Target("# dependents of a.o", ["b"], []);
      After(After(None, [t], false), [t], false) != After(None, [t], false)
  {
  }
}
