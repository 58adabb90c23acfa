/** canonicalize: a path is put together in a buffer and made canonical there, by backing up the
  * write pointer.
  */
module Canonical {
  import opened Paths

  datatype Result = Path(path: string) | TooLong

  /** What stands before the first slash is left as it is. */
  function Head(s: string): (r: string)
    ensures NoSlash(r) && r <= s && (|r| == |s| || s[|r|] == '/')
  {
    if s == "" || s[0] == '/' then "" else [s[0]] + Head(s[1..])
  }

  /** The components past the head. */
  function Tail(s: string): seq<string> {
    if |Head(s)| == |s| then [] else Meaning(s[|Head(s)| + 1..])
  }

  /** What canonicalize makes of a text that has a slash. */
  function Canon(s: string): string {
    if Tail(s) == [] && Head(s) != "" then Head(s) else Head(s) + "/" + Join(Tail(s))
  }

  /** What has been read of t past its head is s and the component `cur`; s stands for `names`, of
    * which the first `ups` are ".." and stay.  Written has been the same with `names` for s. */
  ghost predicate Upto(t: string, s: string, cur: string, w: string, ups: nat, names: seq<string>) {
    && |Head(t)| < |t| && Head(t) + "/" + s + cur <= t
    && AtStart(s) && Meaning(s) == names && Normal(names) && NoSlash(cur)
    && ups <= |names| && names[..ups] == Ups(ups)
    && (forall i :: ups <= i < |names| ==> names[i] != "..")
    && w == Done(t, names) + cur
  }

  function Done(t: string, names: seq<string>): string {
    Head(t) + "/" + Slashed(names)
  }

  lemma {:induction false} ReadChar(t: string, s: string, cur: string, w: string, ups: nat, names: seq<string>, ch: char)
    requires Upto(t, s, cur, w, ups, names) && ch != '/'
    requires var k := |Head(t) + "/" + s + cur|; k < |t| && t[k] == ch
    ensures Upto(t, s, cur + [ch], w + [ch], ups, names)
  {
    assert Head(t) + "/" + s + (cur + [ch]) == Head(t) + "/" + s + cur + [ch];
    assert w + [ch] == Done(t, names) + (cur + [ch]);
  }

  lemma {:induction false} MeaningWithSlash(s: string, cur: string, names: seq<string>)
    requires AtStart(s) && Meaning(s) == names && Normal(names) && NoSlash(cur)
    ensures AtStart(s + cur + "/") && Meaning(s + cur + "/") == Push(names, cur) && Normal(Push(names, cur))
  {
    MeaningGrows(s, cur);
    MeaningOfTrailingSlash(s + cur);
    PushKeepsNormal(names, cur);
  }

  lemma {:induction false} TextWithSlash(head: string, s: string, cur: string, t: string)
    requires head + "/" + s + cur <= t
    requires var k := |head + "/" + s + cur|; k < |t| && t[k] == '/'
    ensures head + "/" + (s + cur + "/") + "" <= t
  {
    assert head + "/" + (s + cur + "/") + "" == head + "/" + s + cur + "/";
  }

  /** A slash ends the component `cur`. */
  lemma {:induction false} ReadSlash(t: string, s: string, cur: string, w: string, ups: nat, names: seq<string>, ups': nat)
    requires Upto(t, s, cur, w, ups, names)
    requires var k := |Head(t) + "/" + s + cur|; k < |t| && t[k] == '/'
    requires ups' == if cur == ".." && ups == |names| then ups + 1 else ups
    ensures var names' := Push(names, cur); Upto(t, s + cur + "/", "", Done(t, names'), ups', names')
  {
    MeaningWithSlash(s, cur, names);
    PushKeepsUps(names, cur, ups);
    TextWithSlash(Head(t), s, cur, t);
    assert Done(t, Push(names, cur)) + "" == Done(t, Push(names, cur));
  }

  lemma {:induction false} PushKeepsUps(names: seq<string>, cur: string, ups: nat)
    requires ups <= |names| && names[..ups] == Ups(ups) && forall i :: ups <= i < |names| ==> names[i] != ".."
    ensures var names', ups' := Push(names, cur), if cur == ".." && ups == |names| then ups + 1 else ups;
      && ups' <= |names'| && names'[..ups'] == Ups(ups')
      && (forall i :: ups' <= i < |names'| ==> names'[i] != "..")
  {
    if ups == |names| { assert names == Ups(ups); }
    assert Ups(ups + 1) == Ups(ups) + [".."];
  }

  /** What the buffer looks like when the slash has been written. */
  lemma {:induction false} WithSlash(t: string, s: string, cur: string, w: string, ups: nat, names: seq<string>)
    requires Upto(t, s, cur, w, ups, names)
    ensures var w1 := w + "/"; var k := |w1|;
      && k >= 2 && |Done(t, names)| >= 1 && Done(t, names)[|Done(t, names)| - 1] == '/'
      && (w1[k - 2] == '/' <==> cur == "")
      && (cur != "" && w1[k - 2] == '.' ==> k >= 3 && (w1[k - 3] == '/' <==> cur == "."))
      && (cur != "" && cur != "." && w1[k - 2] == w1[k - 3] == '.' ==> k >= 4 && (w1[k - 4] == '/' <==> cur == ".."))
      && (cur == "." ==> w1[k - 2] == '.')
      && (cur == ".." ==> w1[k - 2] == w1[k - 3] == '.')
  {
    var d := Done(t, names);
    LastOfSlashed(names);
    assert w == d + cur;
  }

  lemma {:induction false} LastOfSlashed(names: seq<string>)
    ensures names != [] ==> Slashed(names) != "" && Slashed(names)[|Slashed(names)| - 1] == '/'
  {
    if names != [] { JoinSlashed(names); }
  }

  /** Back up from a slash to the one before it. */
  method BackUp(a: array<char>, peek: nat, ghost low: nat) returns (p: nat)
    requires low < peek <= a.Length && a[low] == '/'
    ensures low <= p < peek && a[p] == '/' && forall i :: p < i < peek ==> a[i] != '/'
  {
    p := peek - 1;
    while a[p] != '/'
      invariant low <= p < peek && forall i :: p < i < peek ==> a[i] != '/'
      decreases p
    {
      p := p - 1;
    }
  }

  /** The position of the "first" slash: no component before it may be removed. */
  function Slash(t: string, ups: nat): nat { |Done(t, Ups(ups))| - 1 }

  lemma {:induction false} DoneGrows(t: string, names: seq<string>, name: string)
    ensures Done(t, names + [name]) == Done(t, names) + name + "/"
  {
    SlashedAppend(names, name);
  }

  lemma {:induction false} DoneBeyondUps(t: string, ups: nat, names: seq<string>)
    requires ups <= |names| && names[..ups] == Ups(ups)
    ensures Slash(t, ups) < |Done(t, names)|
    ensures Slash(t, ups) == |Done(t, names)| - 1 <==> ups == |names|
    decreases |names|
  {
    if ups < |names| {
      var k := |names| - 1;
      assert names == names[..k] + [names[k]] && names[..k][..ups] == names[..ups];
      DoneGrows(t, names[..k], names[k]);
      DoneBeyondUps(t, ups, names[..k]);
    } else {
      assert names[..ups] == names;
    }
  }

  lemma {:induction false} CancelsLast(t: string, ups: nat, names: seq<string>)
    requires ups < |names| && names[..ups] == Ups(ups) && Normal(names) && names[|names| - 1] != ".."
    ensures var init, last := names[..|names| - 1], names[|names| - 1];
      Done(t, names) == Done(t, init) + last + "/" && NoSlash(last) && Push(names, "..") == init
  {
    assert names == names[..|names| - 1] + [names[|names| - 1]];
    assert Name(names[|names| - 1]);
    DoneGrows(t, names[..|names| - 1], names[|names| - 1]);
  }

  /** The component before a ".." is backed up over. */
  method RemoveToken(a: array<char>, to: nat, peek: nat, ghost t: string, ghost ups: nat, ghost names: seq<string>)
    returns (to': nat)
    requires ups < |names| && names[..ups] == Ups(ups) && Normal(names) && names[|names| - 1] != ".."
    requires to <= a.Length && a[..to] == Done(t, names) + "../" && peek == |Done(t, names)| - 1
    ensures to' <= to && a[..to'] == Done(t, Push(names, ".."))
  {
    CancelsLast(t, ups, names);
    ghost var init, last := names[..|names| - 1], names[|names| - 1];
    LastOfSlashed(init);
    ghost var low := |Done(t, init)| - 1;
    assert Done(t, init)[low] == '/';
    assert forall i :: 0 <= i < to ==> a[i] == a[..to][i];
    assert forall i :: low < i < peek ==> a[i] == last[i - low - 1];
    var p := BackUp(a, peek, low);
    to' := p + 1;
    assert a[..to'] == a[..to][..to'] && a[..to][..to'] == Done(t, init);
  }

  /** A slash has been copied: look back at what stands before it. */
  method LookBack(a: array<char>, to: nat, slash: nat, ghost t: string, ghost s: string, ghost cur: string, ghost ups: nat,
      ghost names: seq<string>) returns (to': nat, slash': nat)
    requires Upto(t, s, cur, Done(t, names) + cur, ups, names) && to <= a.Length
    requires a[..to] == Done(t, names) + cur + "/" && slash == Slash(t, ups)
    ensures to' <= to && a[..to'] == Done(t, Push(names, cur))
    ensures slash' == Slash(t, if cur == ".." && ups == |names| then ups + 1 else ups)
  {
    ghost var d := Done(t, names);
    WithSlash(t, s, cur, d + cur, ups, names);
    assert forall i :: 0 <= i < to ==> a[i] == (d + cur + "/")[i];
    to', slash' := to, slash;
    var peek := to - 2;
    if a[peek] == '/' {
      to' := to - 1;
      assert a[..to'] == a[..to][..to - 1] && (d + "" + "/")[..to - 1] == d;
      return;
    }
    if a[peek] == '.' {
      peek := peek - 1;
      if a[peek] == '/' {
        to' := to - 2;
        assert a[..to'] == a[..to][..to - 2] && (d + "." + "/")[..to - 2] == d;
        return;
      }
      if a[peek] == '.' {
        peek := peek - 1;
        if a[peek] == '/' {
          DoneBeyondUps(t, ups, names);
          if peek == slash {
            slash' := to - 1;
            assert names == Ups(ups) && Ups(ups + 1) == names + [".."];
            DoneGrows(t, names, "..");
            return;
          }
          assert d + ".." + "/" == d + "../";
          to' := RemoveToken(a, to, peek, t, ups, names);
          return;
        }
      }
    }
    DoneGrows(t, names, cur);
  }

  lemma {:induction false} HeadFirst(t: string, i: nat)
    requires i < |t| && t[i] == '/' && NoSlash(t[..i])
    ensures |Head(t)| == i
  {
    if i > 0 {
      var rest := t[1..][..i - 1];
      forall j | 0 <= j < |rest| ensures rest[j] != '/' {
        assert rest[j] == t[..i][j + 1];
      }
      assert t[..i][0] == t[0];
      HeadFirst(t[1..], i - 1);
    }
  }

  /** index(outbuf, '/'). */
  method FirstSlash(a: array<char>, ghost t: string) returns (slash: nat)
    requires Holds(a, t, 0) && |Head(t)| < |t|
    ensures slash == |Head(t)|
  {
    slash := 0;
    while a[slash] != '/'
      invariant slash <= |Head(t)| && NoSlash(t[..slash])
      decreases |t| - slash
    {
      slash := slash + 1;
    }
    HeadFirst(t, slash);
  }

  lemma {:induction false} UptoStart(t: string)
    requires |Head(t)| < |t|
    ensures Upto(t, "", "", Done(t, []) + "", 0, [])
    ensures Done(t, []) == t[..|Head(t)| + 1] && Slash(t, 0) == |Head(t)|
  {
    ScanIsMeaning("");
    assert Ups(0) == [];
    assert Done(t, []) == Head(t) + "/" && Done(t, []) + "" == Done(t, []);
    assert Head(t) + "/" + "" + "" == Head(t) + "/";
  }

  lemma {:induction false} LastOfTwo(x: string, y: string)
    ensures y != "" ==> (x + y)[|x + y| - 1] == y[|y| - 1]
  {
  }

  lemma {:induction false} UptoEnd(t: string, s: string, cur: string, w: string, ups: nat, names: seq<string>)
    requires Upto(t, s, cur, w, ups, names) && t[|t| - 1] == '/' && |Head(t) + "/" + s + cur| == |t|
    ensures cur == "" && names == Tail(t) && w == Done(t, names)
  {
    assert Head(t) + "/" + s + cur == t;
    LastOfTwo(Head(t) + "/" + s, cur);
    assert t[|Head(t)| + 1..] == s;
  }

  lemma {:induction false} DoneStripped(t: string)
    requires |Head(t)| < |t|
    ensures var w := Done(t, Tail(t));
      |w| >= 1 && w[|w| - 1] == '/' && Canon(t) == if |w| > 1 then w[..|w| - 1] else w
  {
    var names := Tail(t);
    var w := Done(t, names);
    if names != [] {
      JoinSlashed(names);
      assert w == Head(t) + "/" + Join(names) + "/";
    } else {
      assert w == Head(t) + "/";
    }
  }

  /** The invariant of the loop of canonicalize. */
  ghost predicate Reading(a: array<char>, t: string, from: nat, to: nat, slash: nat,
      s: string, cur: string, ups: nat, names: seq<string>)
    reads a
  {
    && to <= from == |Head(t) + "/" + s + cur| <= |t| && Holds(a, t, from)
    && Upto(t, s, cur, Done(t, names) + cur, ups, names)
    && a[..to] == Done(t, names) + cur && slash == Slash(t, ups)
  }

  /** A turn of the loop of canonicalize. */
  method CopyChar(a: array<char>, ghost t: string, from: nat, to: nat, slash: nat,
      ghost s: string, ghost cur: string, ghost ups: nat, ghost names: seq<string>)
    returns (to': nat, slash': nat, ghost s': string, ghost cur': string, ghost ups': nat, ghost names': seq<string>)
    requires Reading(a, t, from, to, slash, s, cur, ups, names) && from < |t|
    modifies a
    ensures Reading(a, t, from + 1, to', slash', s', cur', ups', names')
  {
    var ch := a[from];
    a[to] := ch;
    to', slash' := to + 1, slash;
    assert a[..to'] == Done(t, names) + cur + [ch];
    if ch != '/' {
      ReadChar(t, s, cur, Done(t, names) + cur, ups, names, ch);
      s', cur', ups', names' := s, cur + [ch], ups, names;
    } else {
      to', slash' := LookBack(a, to', slash, t, s, cur, ups, names);
      s', cur', names' := s + cur + "/", "", Push(names, cur);
      ups' := if cur == ".." && ups == |names| then ups + 1 else ups;
      ReadSlash(t, s, cur, Done(t, names) + cur, ups, names, ups');
    }
  }

  /** The loop of canonicalize: it never writes past what it has read. */
  method CopyAll(a: array<char>, ghost t: string) returns (to: nat)
    requires Holds(a, t, 0) && |Head(t)| < |t| && t[|t| - 1] == '/'
    modifies a
    ensures to <= |t| < a.Length && a[..to] == Done(t, Tail(t))
  {
    var slash := FirstSlash(a, t);
    var from := slash + 1;
    to := slash + 1;
    ghost var s, cur, ups, names := "", "", 0, [];
    UptoStart(t);
    while a[from] != '\0'
      invariant Reading(a, t, from, to, slash, s, cur, ups, names)
      decreases |t| - from
    {
      to, slash, s, cur, ups, names := CopyChar(a, t, from, to, slash, s, cur, ups, names);
      from := from + 1;
    }
    UptoEnd(t, s, cur, Done(t, names) + cur, ups, names);
  }

  /** canonicalize, in a buffer that holds the whole text. */
  method CanonicalizeInPlace(a: array<char>, ghost t: string) returns (m: nat)
    requires Holds(a, t, 0) && |Head(t)| < |t| && t[|t| - 1] == '/'
    modifies a
    ensures m <= |t| < a.Length && a[m] == '\0' && a[..m] == Canon(t)
  {
    m := CopyAll(a, t);
    DoneStripped(t);
    a[m] := '\0';
    if m - 1 > 0 && a[m - 1] == '/' {
      m := m - 1;
      a[m] := '\0';
    }
  }

  /** concat for one more part: false if the buffer has no room for it and a null character. */
  method Concat(a: array<char>, ptr: nat, part: string) returns (end: nat, ok: bool)
    requires ptr < a.Length
    modifies a
    ensures ok <==> ptr + |part| < a.Length
    ensures ok ==> end == ptr + |part| && a[..end] == old(a[..ptr]) + part
  {
    end, ok := ptr, true;
    var i := 0;
    while i < |part|
      invariant 0 <= i <= |part| && end == ptr + i < a.Length
      invariant a[..end] == old(a[..ptr]) + part[..i]
    {
      a[end] := part[i];
      i, end := i + 1, end + 1;
      if end == a.Length { return end, false; }
    }
    assert part[..i] == part;
  }

  /** The four parts of the text. */
  method ConcatAll(a: array<char>, base: string, relpath: string) returns (n: nat, ok: bool)
    requires a.Length > 0
    modifies a
    ensures ok <==> |base + "/" + relpath + "/"| < a.Length
    ensures ok ==> n == |base + "/" + relpath + "/"| && a[..n] == base + "/" + relpath + "/"
  {
    n, ok := Concat(a, 0, base);
    assert ok ==> a[..n] == base;
    if ok { n, ok := Concat(a, n, "/"); }
    if ok { n, ok := Concat(a, n, relpath); }
    if ok { n, ok := Concat(a, n, "/"); }
  }

  /** canonicalize: the base and the path below it are put together and made canonical. */
  method Canonicalize(base: string, relpath: string, size: int) returns (r: Result)
    requires forall i :: 0 <= i < |base| ==> base[i] != '\0'
    requires forall i :: 0 <= i < |relpath| ==> relpath[i] != '\0'
    ensures var t := base + "/" + relpath + "/";
      r == if |t| < size then Path(Canon(t)) else TooLong
  {
    ghost var t := base + "/" + relpath + "/";
    if size <= 0 { return TooLong; }
    var a := new char[size](_ => '\0');
    var n, ok := ConcatAll(a, base, relpath);
    if !ok { return TooLong; }
    a[n] := '\0';
    SlashInHead(base, relpath);
    assert a[..n] == t && forall i :: 0 <= i < n ==> a[i] == t[i];
    var m := CanonicalizeInPlace(a, t);
    r := Path(a[..m]);
  }

  lemma {:induction false} HeadStops(t: string, k: nat)
    requires k < |t| && t[k] == '/'
    ensures |Head(t)| <= k
  {
    if t[0] != '/' { HeadStops(t[1..], k - 1); }
  }

  lemma {:induction false} SlashInHead(base: string, relpath: string)
    ensures var t := base + "/" + relpath + "/"; |Head(t)| < |t| && t[|t| - 1] == '/'
  {
    var t := base + "/" + relpath + "/";
    assert t[|base|] == '/';
    HeadStops(t, |base|);
  }

  // ------------------------------------------------------------- what it means

  /** The two normalisers agree: an absolute path, given to canonicalize with an empty base, with or
    * without its first slash, comes out as string_flatten makes it. */
  lemma {:induction false} NormalisersAgree(path: string)
    requires Absolute(path)
    ensures Canon("" + "/" + path[1..] + "/") == Flat(path)
    ensures Canon("" + "/" + path + "/") == Flat(path)
  {
    assert path == "/" + path[1..];
    CanonOfSlashed(path[1..]);
    CanonOfSlashed(path);
    MeaningOfLeadingSlash(path[1..]);
  }

  lemma {:induction false} CanonOfSlashed(path: string)
    ensures Canon("" + "/" + path + "/") == "/" + Join(Meaning(path))
  {
    var t := "/" + path + "/";
    assert "" + "/" + path + "/" == t && t[1..] == path + "/";
    MeaningOfTrailingSlash(path);
  }

  lemma {:induction false} HeadOf(head: string, s: string)
    requires NoSlash(head)
    ensures Head(head + "/" + s) == head
  {
    if head != "" {
      assert (head + "/" + s)[1..] == head[1..] + "/" + s;
      assert NoSlash(head[1..]);
      HeadOf(head[1..], s);
    } else {
      assert head + "/" + s == "/" + s;
    }
  }

  /** The result is canonical: canonicalize leaves it as it is. */
  lemma {:induction false} CanonTwice(s: string)
    ensures Canon(Canon(s) + "/" + "" + "/") == Canon(s)
  {
    var head, names := Head(s), Tail(s);
    if |head| < |s| { MeaningIsNormal(s[|head| + 1..]); }
    assert Normal(names);
    MeaningOfJoin(names);
    var t := Canon(s) + "/" + "" + "/";
    if names == [] && head != "" {
      assert t == head + "/" + "/";
      HeadOf(head, "/");
      assert t[|head| + 1..] == "/";
      ScanIsMeaning("/");
    } else {
      assert t == head + "/" + (Join(names) + "/" + "/");
      HeadOf(head, Join(names) + "/" + "/");
      assert t[|head| + 1..] == Join(names) + "/" + "/";
      MeaningOfTrailingSlash(Join(names) + "/");
      MeaningOfTrailingSlash(Join(names));
    }
  }
}
