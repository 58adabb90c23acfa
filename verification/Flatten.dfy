/** string_flatten: a path is flattened in its own buffer, with a stack of pointers to the components
  * that are still pending.
  */
module Flatten {
  import opened Options
  import opened Paths

  const STACK_SIZE := 64

  // ------------------------------------------------------ what the stack means

  /** The component that starts at r. */
  function Piece(t: string, r: nat): (s: string)
    ensures NoSlash(s) && (r <= |t| ==> r + |s| <= |t| && t[r..r + |s|] == s && (r + |s| == |t| || t[r + |s|] == '/'))
    decreases |t| - r
  {
    if r >= |t| || t[r] == '/' then "" else [t[r]] + Piece(t, r + 1)
  }

  /** The components that the pointers on the stack point to. */
  function Pending(t: string, stack: seq<nat>): (r: seq<string>)
    ensures |r| == |stack|
  {
    if stack == [] then []
    else Pending(t, stack[..|stack| - 1]) + [Piece(t, stack[|stack| - 1])]
  }

  /** How many components are not "..". */
  function Names(names: seq<string>): nat {
    if names == [] then 0 else (if names[0] == ".." then 0 else 1) + Names(names[1..])
  }

  /** No component that ends at q or before makes more of them pending than the fixed-size stack holds. */
  ghost predicate FitsTo(t: string, q: nat) {
    forall i :: 0 <= i <= q && i <= |t| && (i == |t| || t[i] == '/') ==> Names(Meaning(t[..i])) <= STACK_SIZE
  }

  ghost predicate Fits(t: string) {
    FitsTo(t, |t|)
  }

  /** The pointers point to different components, one after the other, all of them read already and
    * none of them written over: writing has got to p, reading to q. */
  predicate StackOk(t: string, stack: seq<nat>, p: nat, q: nat)
    decreases |stack|
  {
    && p <= q <= |t|
    && (stack == [] ||
        var k := |stack| - 1;
        && IsPending(t, stack[k]) && p <= stack[k] && End(t, stack[k]) <= q
        && (k == 0 || (stack[k] > 0 && StackOk(t, stack[..k], p, stack[k] - 1))))
  }

  function End(t: string, r: nat): nat {
    r + |Piece(t, r)|
  }

  /** A component that may stay starts at r. */
  predicate IsPending(t: string, r: nat) {
    r < |t| && Name(Piece(t, r)) && Piece(t, r) != ".."
  }

  /** What has been written is the text w; where the last component of the path is among it, the
    * slash after it is missing. */
  predicate Written(w: string, all: string, ended: bool) {
    w == all || (ended && w + "/" == all)
  }

  lemma {:induction false} NamesAppend(names: seq<string>, name: string)
    ensures Names(names + [name]) == Names(names) + if name == ".." then 0 else 1
  {
    if names == [] {
      assert [] + [name] == [name];
    } else {
      assert (names + [name])[1..] == names[1..] + [name];
      NamesAppend(names[1..], name);
    }
  }

  lemma {:induction false} NamesOfUps(k: nat)
    ensures Names(Ups(k)) == 0
  {
    if k > 0 {
      assert Ups(k)[1..] == Ups(k - 1);
      NamesOfUps(k - 1);
    }
  }

  lemma {:induction false} NamesOfPending(t: string, stack: seq<nat>, p: nat, q: nat, ups: nat)
    requires StackOk(t, stack, p, q)
    ensures Names(Ups(ups) + Pending(t, stack)) == |stack|
    decreases |stack|
  {
    if stack == [] {
      NamesOfUps(ups);
      assert Ups(ups) + [] == Ups(ups);
    } else {
      var k := |stack| - 1;
      var rest, name := Pending(t, stack[..k]), Piece(t, stack[k]);
      if k == 0 {
        NamesOfPending(t, stack[..k], p, q, ups);
      } else {
        NamesOfPending(t, stack[..k], p, stack[k] - 1, ups);
      }
      assert Ups(ups) + (rest + [name]) == Ups(ups) + rest + [name];
      NamesAppend(Ups(ups) + rest, name);
    }
  }

  /** The next component, from r to e, has been read. */
  lemma {:induction false} ReadPiece(t: string, r: nat)
    requires r < |t| && AtStart(t[..r]) && t[r] != '/'
    ensures var e := r + |Piece(t, r)|; e > r && Meaning(t[..e]) == Push(Meaning(t[..r]), Piece(t, r))
  {
    var e := r + |Piece(t, r)|;
    assert t[..e] == t[..r] + Piece(t, r);
    MeaningGrows(t[..r], Piece(t, r));
  }

  lemma {:induction false} ReadSlash(t: string, q: nat)
    requires q < |t| && t[q] == '/'
    ensures Meaning(t[..q + 1]) == Meaning(t[..q]) && AtStart(t[..q + 1])
  {
    assert t[..q + 1] == t[..q] + "/";
    MeaningOfTrailingSlash(t[..q]);
  }

  function Lead(t: string): string { if Absolute(t) then "/" else "" }

  /** The first pass has read up to q: w is written, and the stack holds what is pending. */
  ghost predicate Found(t: string, w: string, stack: seq<nat>, ups: nat, q: nat) {
    && StackOk(t, stack, |w|, q)
    && Meaning(t[..q]) == Ups(ups) + Pending(t, stack)
    && Written(w, Lead(t) + Slashed(Ups(ups)), q == |t| && ups > 0 && stack == [])
  }

  lemma {:induction false} FoundDot(t: string, w: string, stack: seq<nat>, ups: nat, r: nat)
    requires r < |t| && AtStart(t[..r]) && Found(t, w, stack, ups, r) && Piece(t, r) == "."
    ensures Found(t, w, stack, ups, r + 1)
  {
    ReadPiece(t, r);
  }

  lemma {:induction false} StackGrows(t: string, stack: seq<nat>, p: nat, r: nat)
    requires r < |t| && StackOk(t, stack, p, r) && t[r] != '/' && Piece(t, r) != "." && Piece(t, r) != ".."
    requires AtStart(t[..r])
    ensures StackOk(t, stack + [r], p, r + |Piece(t, r)|)
  {
    assert (stack + [r])[..|stack|] == stack;
    if stack != [] { PendingEndsBefore(t, stack[|stack| - 1], r); }
  }

  lemma {:induction false} PendingEndsBefore(t: string, s: nat, r: nat)
    requires r < |t| && IsPending(t, s) && End(t, s) <= r && AtStart(t[..r])
    ensures End(t, s) < r
  {
    assert forall i :: s <= i < End(t, s) ==> t[i] == Piece(t, s)[i - s];
  }

  lemma {:induction false} StackShrinks(t: string, stack: seq<nat>, p: nat, q: nat, q': nat)
    requires StackOk(t, stack, p, q) && q <= q' <= |t| && stack != []
    ensures StackOk(t, stack[..|stack| - 1], p, q')
  {
  }

  /** The k-th pointer from the bottom is good, and its component ends before the next one starts. */
  lemma {:induction false} StackAt(t: string, stack: seq<nat>, p: nat, q: nat, k: nat)
    requires StackOk(t, stack, p, q) && k < |stack|
    ensures IsPending(t, stack[k]) && p <= stack[k] && End(t, stack[k]) <= q
    ensures k + 1 < |stack| ==> End(t, stack[k]) < stack[k + 1] < |t|
    decreases |stack|
  {
    var last := |stack| - 1;
    if k < last { StackAt(t, stack[..last], p, stack[last] - 1, k); }
  }

  lemma {:induction false} NameRead(t: string, stack: seq<nat>, ups: nat, r: nat)
    requires r < |t| && AtStart(t[..r]) && t[r] != '/' && Meaning(t[..r]) == Ups(ups) + Pending(t, stack)
    requires Piece(t, r) != "." && Piece(t, r) != ".."
    ensures Meaning(t[..End(t, r)]) == Ups(ups) + Pending(t, stack + [r])
  {
    ReadPiece(t, r);
    assert (stack + [r])[..|stack|] == stack;
    var names, piece := Pending(t, stack), Piece(t, r);
    assert Ups(ups) + (names + [piece]) == Ups(ups) + names + [piece];
  }

  lemma {:induction false} FoundName(t: string, w: string, stack: seq<nat>, ups: nat, r: nat)
    requires r < |t| && AtStart(t[..r]) && Found(t, w, stack, ups, r) && t[r] != '/'
    requires Piece(t, r) != "." && Piece(t, r) != ".."
    ensures Found(t, w, stack + [r], ups, r + |Piece(t, r)|)
  {
    NameRead(t, stack, ups, r);
    StackGrows(t, stack, |w|, r);
  }

  /** As many components are pending as there are pointers on the stack. */
  lemma {:induction false} FoundCount(t: string, w: string, stack: seq<nat>, ups: nat, q: nat)
    requires Found(t, w, stack, ups, q)
    ensures Names(Meaning(t[..q])) == |stack|
  {
    NamesOfPending(t, stack, |w|, q, ups);
  }

  lemma {:induction false} FoundCancel(t: string, w: string, stack: seq<nat>, ups: nat, r: nat)
    requires r < |t| && AtStart(t[..r]) && Found(t, w, stack, ups, r) && Piece(t, r) == ".." && stack != []
    ensures Found(t, w, stack[..|stack| - 1], ups, r + 2)
  {
    ReadPiece(t, r);
    StackShrinks(t, stack, |w|, r, r + 2);
    CancelLast(Ups(ups), Pending(t, stack));
  }

  lemma {:induction false} CancelLast(ups: seq<string>, names: seq<string>)
    requires names != [] && names[|names| - 1] != ".."
    ensures Push(ups + names, "..") == ups + names[..|names| - 1]
  {
    assert (ups + names)[|ups + names| - 1] == names[|names| - 1];
    assert (ups + names)[..|ups + names| - 1] == ups + names[..|names| - 1];
  }

  /** A ".." that has nothing to cancel is written at once, with the slash after it. */
  lemma {:induction false} FoundUp(t: string, w: string, ups: nat, r: nat)
    requires r < |t| && AtStart(t[..r]) && Found(t, w, [], ups, r) && Piece(t, r) == ".."
    ensures if r + 2 < |t| then Found(t, w + "../", [], ups + 1, r + 3) && AtStart(t[..r + 3])
      else Found(t, w + "..", [], ups + 1, r + 2)
  {
    UpsWritten(t, w, ups);
    UpsRead(t, ups, r);
  }

  lemma {:induction false} UpsRead(t: string, ups: nat, r: nat)
    requires r < |t| && AtStart(t[..r]) && Piece(t, r) == ".." && Meaning(t[..r]) == Ups(ups) + Pending(t, [])
    ensures Meaning(t[..r + 2]) == Ups(ups + 1) + Pending(t, [])
    ensures r + 2 < |t| ==> Meaning(t[..r + 3]) == Ups(ups + 1) + Pending(t, []) && AtStart(t[..r + 3])
  {
    ReadPiece(t, r);
    if r + 2 < |t| { ReadSlash(t, r + 2); }
    assert Ups(ups) + Pending(t, []) == Ups(ups) && Ups(ups + 1) + Pending(t, []) == Ups(ups + 1);
    assert Push(Ups(ups), "..") == Ups(ups + 1);
  }

  lemma {:induction false} UpsWritten(t: string, w: string, ups: nat)
    requires w == Lead(t) + Slashed(Ups(ups))
    ensures w + "../" == Lead(t) + Slashed(Ups(ups + 1)) && w + ".." + "/" == w + "../"
  {
    SlashedUps(ups);
  }

  lemma {:induction false} FoundSlash(t: string, w: string, stack: seq<nat>, ups: nat, q: nat)
    requires q < |t| && t[q] == '/' && Found(t, w, stack, ups, q)
    ensures Found(t, w, stack, ups, q + 1) && AtStart(t[..q + 1])
  {
    ReadSlash(t, q);
  }

  // -------------------------------------------------------------- first pass

  /** What is written, and what is on the stack, once the component at r has been dealt with. */
  function TakenText(t: string, w: string, stack: seq<nat>, r: nat): string {
    if Piece(t, r) == ".." && stack == [] then w + (if End(t, r) < |t| then "../" else "..") else w
  }

  function TakenStack(t: string, stack: seq<nat>, r: nat): seq<nat> {
    if Piece(t, r) == "." then stack
    else if Piece(t, r) == ".." then (if stack == [] then [] else stack[..|stack| - 1])
    else stack + [r]
  }

  function TakenUps(t: string, stack: seq<nat>, ups: nat, r: nat): nat {
    if Piece(t, r) == ".." && stack == [] then ups + 1 else ups
  }

  function AfterSlashes(t: string, q: nat): (e: nat)
    ensures q <= |t| ==> q <= e <= |t|
    decreases |t| - q
  {
    if q < |t| && t[q] == '/' then AfterSlashes(t, q + 1) else q
  }

  lemma {:induction false} FoundSlashes(t: string, w: string, stack: seq<nat>, ups: nat, q: nat)
    requires Found(t, w, stack, ups, q) && (q == |t| || t[q] == '/' || AtStart(t[..q]))
    ensures var e := AfterSlashes(t, q);
      Found(t, w, stack, ups, e) && (e == |t| || (AtStart(t[..e]) && t[e] != '/'))
  {
    OverSlashes(t, q);
    FoundTo(t, w, stack, ups, q, AfterSlashes(t, q));
  }

  lemma {:induction false} OverSlashes(t: string, q: nat)
    requires q <= |t|
    ensures var e := AfterSlashes(t, q);
      (forall k :: q <= k < e ==> t[k] == '/') && (e < |t| ==> t[e] != '/') && (e == q || AtStart(t[..e]))
    decreases |t| - q
  {
    if q < |t| && t[q] == '/' {
      OverSlashes(t, q + 1);
      ReadSlash(t, q);
    }
  }

  lemma {:induction false} FoundTo(t: string, w: string, stack: seq<nat>, ups: nat, q: nat, e: nat)
    requires q <= e <= |t| && Found(t, w, stack, ups, q) && forall k :: q <= k < e ==> t[k] == '/'
    ensures Found(t, w, stack, ups, e)
    decreases e - q
  {
    if q < e {
      FoundSlash(t, w, stack, ups, q);
      FoundTo(t, w, stack, ups, q + 1, e);
    }
  }

  lemma {:induction false} FoundMoreUp(t: string, w: string, ups: nat, r: nat)
    requires r < |t| && AtStart(t[..r]) && Found(t, w, [], ups, r) && Piece(t, r) == ".."
    ensures var q := AfterSlashes(t, r + 2);
      && Found(t, w + (if r + 2 < |t| then "../" else ".."), [], ups + 1, q)
      && (q == |t| || (AtStart(t[..q]) && t[q] != '/'))
  {
    FoundUp(t, w, ups, r);
    if r + 2 < |t| {
      FoundSlashes(t, w + "../", [], ups + 1, r + 3);
    } else {
      FoundSlashes(t, w + "..", [], ups + 1, r + 2);
    }
  }

  lemma {:induction false} FoundMoreName(t: string, w: string, stack: seq<nat>, ups: nat, r: nat)
    requires r < |t| && AtStart(t[..r]) && t[r] != '/' && Found(t, w, stack, ups, r)
    requires Piece(t, r) != "." && Piece(t, r) != ".."
    ensures var q := AfterSlashes(t, End(t, r));
      Found(t, w, stack + [r], ups, q) && (q == |t| || (AtStart(t[..q]) && t[q] != '/'))
  {
    FoundName(t, w, stack, ups, r);
    FoundSlashes(t, w, stack + [r], ups, End(t, r));
  }

  lemma {:induction false} FoundMoreDot(t: string, w: string, stack: seq<nat>, ups: nat, r: nat)
    requires r < |t| && AtStart(t[..r]) && Found(t, w, stack, ups, r) && Piece(t, r) == "."
    ensures var q := AfterSlashes(t, r + 1);
      Found(t, w, stack, ups, q) && (q == |t| || (AtStart(t[..q]) && t[q] != '/'))
  {
    FoundDot(t, w, stack, ups, r);
    FoundSlashes(t, w, stack, ups, r + 1);
  }

  lemma {:induction false} FoundMoreCancel(t: string, w: string, stack: seq<nat>, ups: nat, r: nat)
    requires r < |t| && AtStart(t[..r]) && Found(t, w, stack, ups, r) && Piece(t, r) == ".." && stack != []
    ensures var q := AfterSlashes(t, r + 2);
      Found(t, w, stack[..|stack| - 1], ups, q) && (q == |t| || (AtStart(t[..q]) && t[q] != '/'))
  {
    FoundCancel(t, w, stack, ups, r);
    FoundSlashes(t, w, stack[..|stack| - 1], ups, r + 2);
  }

  /** The component at r, and the slashes after it, have been dealt with. */
  lemma {:induction false} FoundMore(t: string, w: string, stack: seq<nat>, ups: nat, r: nat)
    requires r < |t| && AtStart(t[..r]) && t[r] != '/' && Found(t, w, stack, ups, r)
    ensures var q := AfterSlashes(t, End(t, r));
      && Found(t, TakenText(t, w, stack, r), TakenStack(t, stack, r), TakenUps(t, stack, ups, r), q)
      && (q == |t| || (AtStart(t[..q]) && t[q] != '/'))
  {
    var piece := Piece(t, r);
    var w', stack', ups' := TakenText(t, w, stack, r), TakenStack(t, stack, r), TakenUps(t, stack, ups, r);
    if piece != "." && piece != ".." {
      FoundMoreName(t, w, stack, ups, r);
      assert w' == w && stack' == stack + [r] && ups' == ups;
    } else if piece == "." {
      FoundMoreDot(t, w, stack, ups, r);
      assert w' == w && stack' == stack && ups' == ups;
    } else if stack == [] {
      FoundMoreUp(t, w, ups, r);
      assert stack' == [] && ups' == ups + 1;
    } else {
      FoundMoreCancel(t, w, stack, ups, r);
      assert w' == w && stack' == stack[..|stack| - 1] && ups' == ups;
    }
  }

  lemma {:induction false} PieceNotEmpty(t: string, r: nat)
    requires r < |t| && t[r] != '/'
    ensures r < End(t, r) <= AfterSlashes(t, End(t, r)) <= |t|
  {
  }

  /** Where the component that starts at r ends. */
  method EndOfPiece(a: array<char>, ghost t: string, ghost p: nat, r: nat) returns (q: nat)
    requires Holds(a, t, p) && p <= r < |t| && t[r] != '/'
    ensures q == End(t, r) > r
  {
    q := r + 1;
    while a[q] != '\0' && a[q] != '/'
      invariant r < q <= End(t, r)
      decreases |t| - q
    {
      assert t[r..End(t, r)][q - r] == Piece(t, r)[q - r];
      q := q + 1;
    }
  }

  /** Write a ".." that has nothing to cancel. */
  method WriteUp(a: array<char>, ghost t: string, p: nat, q: nat) returns (p': nat)
    requires Holds(a, t, p) && p + 2 <= q <= |t| && (q < |t| ==> t[q] == '/')
    modifies a
    ensures Holds(a, t, p') && a[..p'] == old(a[..p]) + (if q < |t| then "../" else "..")
    ensures q < |t| ==> a[q] == '/'
  {
    a[p], a[p + 1] := '.', '.';
    p' := p + 2;
    if a[q] != '\0' {
      a[p'] := '/';
      p' := p' + 1;
    }
  }

  /** Look at the component from r to q: is it a name, or ".."? */
  method Classify(a: array<char>, ghost t: string, ghost p: nat, r: nat, q: nat) returns (name: bool, up: bool)
    requires Holds(a, t, p) && p <= r < |t| && t[r] != '/' && q == End(t, r)
    ensures name <==> Piece(t, r) != "." && Piece(t, r) != ".."
    ensures up <==> Piece(t, r) == ".."
  {
    ghost var piece := Piece(t, r);
    assert t[r..q] == piece && |piece| == q - r;
    name, up := false, false;
    if q != r + 1 || a[r] != '.' {
      assert piece != ".";
      if q != r + 2 || a[r] != '.' || a[r + 1] != '.' { name := true; } else { up := true; }
    }
  }

  /** What becomes of the component from r to q: a name goes on the stack, and a ".." takes the last
    * name off it or else is written.  The program does not look whether the stack has room. */
  method TakePiece(a: array<char>, ghost t: string, p: nat, r: nat, q: nat, stack: array<nat>, sp: nat)
    returns (room: bool, p': nat, sp': nat)
    requires Holds(a, t, p) && p <= r < |t| && t[r] != '/' && q == End(t, r) && sp <= stack.Length
    modifies a, stack
    ensures !room <==> Piece(t, r) != "." && Piece(t, r) != ".." && sp == stack.Length
    ensures room ==> Holds(a, t, p') && (q < |t| ==> a[q] == '/')
    ensures room ==> a[..p'] == TakenText(t, old(a[..p]), old(stack[..sp]), r)
    ensures room ==> sp' <= stack.Length && stack[..sp'] == TakenStack(t, old(stack[..sp]), r)
  {
    room, p', sp' := true, p, sp;
    var name, up := Classify(a, t, p, r, q);
    if name {
      if sp == stack.Length { return false, p, sp; }
      stack[sp] := r;
      sp' := sp + 1;
    } else if up {
      if sp != 0 {
        sp' := sp - 1;
        assert stack[..sp'] == stack[..sp][..sp - 1];
      } else {
        p' := WriteUp(a, t, p, q);
      }
    }
  }

  method SkipSlashes(a: array<char>, ghost t: string, ghost p: nat, q: nat) returns (q': nat)
    requires Holds(a, t, p) && p <= q + 1 && q <= |t| && (q < |t| ==> a[q] == t[q])
    ensures q' == AfterSlashes(t, q)
  {
    q' := q;
    while a[q'] == '/'
      invariant q <= q' <= |t| && AfterSlashes(t, q') == AfterSlashes(t, q)
      decreases |t| - q'
    {
      q' := q' + 1;
    }
  }

  /** The stack has no room for the component at r: so many components are pending. */
  lemma {:induction false} NoRoomForPiece(t: string, w: string, stack: seq<nat>, ups: nat, r: nat)
    requires r < |t| && AtStart(t[..r]) && t[r] != '/' && Found(t, w, stack, ups, r)
    requires Piece(t, r) != "." && Piece(t, r) != ".." && |stack| == STACK_SIZE
    ensures !Fits(t)
  {
    var e := End(t, r);
    FoundName(t, w, stack, ups, r);
    FoundCount(t, w, stack + [r], ups, e);
    EndIsEnd(t, r);
  }

  lemma {:induction false} EndIsEnd(t: string, r: nat)
    requires r < |t|
    ensures End(t, r) <= |t| && (End(t, r) == |t| || t[End(t, r)] == '/')
    ensures forall i :: r <= i < End(t, r) ==> t[i] != '/'
    decreases |t| - r
  {
    if t[r] != '/' && r + 1 < |t| { EndIsEnd(t, r + 1); }
  }

  lemma {:induction false} SlashesMeanNothing(t: string, i: nat, e: nat)
    requires i <= e <= |t| && forall k :: i <= k < e ==> t[k] == '/'
    ensures Meaning(t[..i]) == Meaning(t[..e])
    decreases e - i
  {
    if i < e {
      ReadSlash(t, i);
      SlashesMeanNothing(t, i + 1, e);
    }
  }

  /** No more than the stack holds are pending at the end of the component at r. */
  lemma {:induction false} FitsMore(t: string, w: string, stack: seq<nat>, ups: nat, r: nat)
    requires r < |t| && AtStart(t[..r]) && t[r] != '/' && Found(t, w, stack, ups, r) && FitsTo(t, r)
    requires |TakenStack(t, stack, r)| <= STACK_SIZE
    ensures FitsTo(t, AfterSlashes(t, End(t, r)))
  {
    var e, q := End(t, r), AfterSlashes(t, End(t, r));
    FoundMore(t, w, stack, ups, r);
    FoundCount(t, TakenText(t, w, stack, r), TakenStack(t, stack, r), TakenUps(t, stack, ups, r), q);
    EndIsEnd(t, r);
    OverSlashes(t, e);
    forall i | r < i <= q && (i == |t| || t[i] == '/') ensures Names(Meaning(t[..i])) <= STACK_SIZE {
      SlashesMeanNothing(t, i, q);
    }
  }

  /** The component at r and the slashes after it. */
  method NextPiece(a: array<char>, ghost t: string, p: nat, r: nat, stack: array<nat>, sp: nat)
    returns (room: bool, p': nat, q: nat, sp': nat)
    requires Holds(a, t, p) && p <= r < |t| && t[r] != '/' && sp <= stack.Length
    modifies a, stack
    ensures !room <==> Piece(t, r) != "." && Piece(t, r) != ".." && sp == stack.Length
    ensures room ==> Holds(a, t, p') && q == AfterSlashes(t, End(t, r))
    ensures room ==> a[..p'] == TakenText(t, old(a[..p]), old(stack[..sp]), r)
    ensures room ==> sp' <= stack.Length && stack[..sp'] == TakenStack(t, old(stack[..sp]), r)
  {
    q := EndOfPiece(a, t, p, r);
    room, p', sp' := TakePiece(a, t, p, r, q, stack, sp);
    if room {
      assert |a[..p']| == p';
      q := SkipSlashes(a, t, p', q);
    }
  }

  /** A turn of the loop of the first pass. */
  method TakeNext(a: array<char>, ghost t: string, p: nat, r: nat, stack: array<nat>, sp: nat, ghost ups: nat)
    returns (room: bool, p': nat, q: nat, sp': nat, ghost ups': nat)
    requires Holds(a, t, p) && stack.Length == STACK_SIZE && sp <= STACK_SIZE && Found(t, a[..p], stack[..sp], ups, r)
    requires r < |t| && AtStart(t[..r]) && t[r] != '/' && FitsTo(t, r)
    modifies a, stack
    ensures !room ==> !Fits(t)
    ensures room ==> Holds(a, t, p') && sp' <= STACK_SIZE && Found(t, a[..p'], stack[..sp'], ups', q) && FitsTo(t, q)
    ensures room ==> r < q <= |t| && (q == |t| || (AtStart(t[..q]) && t[q] != '/'))
  {
    ghost var w, st := a[..p], stack[..sp];
    PieceNotEmpty(t, r);
    ups' := TakenUps(t, st, ups, r);
    room, p', q, sp' := NextPiece(a, t, p, r, stack, sp);
    if room {
      FoundMore(t, w, st, ups, r);
      FitsMore(t, w, st, ups, r);
    } else {
      NoRoomForPiece(t, w, st, ups, r);
    }
  }

  /** The first pass. */
  method FindComponents(a: array<char>, ghost t: string, stack: array<nat>)
    returns (room: bool, p: nat, sp: nat, ghost ups: nat)
    requires Holds(a, t, 0) && stack.Length == STACK_SIZE
    modifies a, stack
    ensures room <==> Fits(t)
    ensures room ==> Holds(a, t, p) && sp <= STACK_SIZE && Found(t, a[..p], stack[..sp], ups, |t|)
  {
    var q := 0;
    room, p, sp, ups := true, 0, 0, 0;
    FoundNothing(t);
    assert stack[..0] == [] && a[..0] == [];
    if a[0] == '/' {
      p := 1;
      assert a[..1] == "/";
      q := SkipSlashes(a, t, 1, 1);
    }
    FitsAtFirst(t, q);
    while a[q] != '\0'
      invariant Holds(a, t, p) && sp <= STACK_SIZE && Found(t, a[..p], stack[..sp], ups, q) && FitsTo(t, q)
      invariant q == |t| || (q < |t| && AtStart(t[..q]) && t[q] != '/')
      decreases |t| - q
    {
      room, p, q, sp, ups := TakeNext(a, t, p, q, stack, sp, ups);
      if !room { return; }
    }
  }

  /** Nothing is pending before the first component. */
  lemma {:induction false} FitsAtFirst(t: string, q: nat)
    requires q == if Absolute(t) then AfterSlashes(t, 1) else 0
    ensures FitsTo(t, q)
  {
    FoundNothing(t);
    FoundCount(t, if Absolute(t) then "/" else "", [], 0, q);
    OverSlashes(t, if Absolute(t) then 1 else 0);
    forall i | 0 <= i <= q && i <= |t| && (i == |t| || t[i] == '/') ensures Names(Meaning(t[..i])) <= STACK_SIZE {
      SlashesMeanNothing(t, i, q);
    }
  }

  /** Before the first component. */
  lemma {:induction false} FoundNothing(t: string)
    ensures var q := if Absolute(t) then AfterSlashes(t, 1) else 0;
      Found(t, if Absolute(t) then "/" else "", [], 0, q) && (q == |t| || (AtStart(t[..q]) && t[q] != '/'))
  {
    ScanIsMeaning(t[..0]);
    assert Ups(0) + Pending(t, []) == [];
    assert "/" + Slashed(Ups(0)) == "/";
    if Absolute(t) {
      ReadSlash(t, 0);
      FoundSlashes(t, "/", [], 0, 1);
    }
  }

  // -------------------------------------------------------------- second pass

  method CopyOne(a: array<char>, ghost t: string, p: nat, q: nat) returns (ch: char)
    requires Holds(a, t, p) && p <= q < |t|
    modifies a
    ensures ch == t[q] && Holds(a, t, p + 1) && a[..p + 1] == old(a[..p]) + [ch]
  {
    ch := a[q];
    a[p] := ch;
  }

  /** Copy the component at r, and the slash after it if there is one. */
  method CopyPiece(a: array<char>, ghost t: string, p: nat, r: nat) returns (p': nat)
    requires Holds(a, t, p) && p <= r < |t| && t[r] != '/'
    modifies a
    ensures p' == p + Copied(t, r) - r && Holds(a, t, p')
    ensures a[..p'] == old(a[..p]) + t[r..Copied(t, r)]
  {
    var q := r;
    p' := p;
    ghost var w := a[..p];
    var ch := ' ';
    while ch != '/' && a[q] != '\0'
      invariant p' - p == q - r && r <= q <= Copied(t, r) && Holds(a, t, p')
      invariant a[..p'] == w + t[r..q]
      invariant ch == '/' <==> q == End(t, r) + 1
      decreases |t| - q
    {
      assert t[r..q + 1] == t[r..q] + [t[q]];
      CopiedSlash(t, r, q);
      ch := CopyOne(a, t, p', q);
      p', q := p' + 1, q + 1;
    }
  }

  /** Where the copy of the component at r ends. */
  function Copied(t: string, r: nat): (e: nat)
    requires r <= |t|
    ensures r <= e <= |t|
  {
    if End(t, r) < |t| then End(t, r) + 1 else |t|
  }

  lemma {:induction false} CopiedSlash(t: string, r: nat, q: nat)
    requires r <= q < |t| && q <= End(t, r)
    ensures t[q] == '/' <==> q == End(t, r)
  {
    assert t[r..End(t, r)] == Piece(t, r);
    if q < End(t, r) { assert t[q] == Piece(t, r)[q - r]; }
  }

  lemma {:induction false} PendingPrefix(t: string, stack: seq<nat>, k: nat)
    requires k < |stack|
    ensures Pending(t, stack[..k + 1]) == Pending(t, stack[..k]) + [Piece(t, stack[k])]
  {
    assert stack[..k + 1][..k] == stack[..k];
  }

  lemma {:induction false} CopiedText(t: string, r: nat)
    requires r < |t|
    ensures t[r..Copied(t, r)] == Piece(t, r) + if End(t, r) < |t| then "/" else ""
  {
  }

  lemma {:induction false} OneMoreSlashed(lead: string, names: seq<string>, name: string, w: string)
    requires w == lead + Slashed(names)
    ensures lead + Slashed(names + [name]) == w + name + "/"
  {
    SlashedAppend(names, name);
  }

  /** Copying the k-th component writes it. */
  lemma {:induction false} CopyWrites(t: string, w: string, stack: seq<nat>, k: nat, ups: nat)
    requires k < |stack| && IsPending(t, stack[k]) && (k + 1 < |stack| ==> End(t, stack[k]) < |t|)
    requires w == Lead(t) + Slashed(Ups(ups) + Pending(t, stack[..k]))
    ensures var r := stack[k];
      Written(w + t[r..Copied(t, r)], Lead(t) + Slashed(Ups(ups) + Pending(t, stack[..k + 1])), k + 1 == |stack|)
  {
    var r := stack[k];
    var names, piece := Ups(ups) + Pending(t, stack[..k]), Piece(t, r);
    PendingPrefix(t, stack, k);
    assert Ups(ups) + (Pending(t, stack[..k]) + [piece]) == names + [piece];
    OneMoreSlashed(Lead(t), names, piece, w);
    CopiedText(t, r);
    assert w + (piece + "/") == w + piece + "/" && w + (piece + "") == w + piece;
  }

  /** What the second pass has written when it has copied k components. */
  ghost predicate Copying(t: string, w: string, stack: seq<nat>, ups: nat, k: nat) {
    k <= |stack| &&
    Written(w, Lead(t) + Slashed(Ups(ups) + Pending(t, stack[..k])), k == |stack| && (ups > 0 || stack != []))
  }

  lemma {:induction false} CopyStarts(t: string, w: string, stack: seq<nat>, ups: nat)
    requires Found(t, w, stack, ups, |t|)
    ensures Copying(t, w, stack, ups, 0) && (stack != [] ==> |w| <= stack[0])
  {
    assert Pending(t, stack[..0]) == [] && Ups(ups) + [] == Ups(ups);
    if stack != [] { StackAt(t, stack, |w|, |t|, 0); }
  }

  lemma {:induction false} CopyEnds(t: string, w0: string, w: string, stack: seq<nat>, ups: nat)
    requires Found(t, w0, stack, ups, |t|) && Copying(t, w, stack, ups, |stack|)
    ensures Written(w, Lead(t) + Slashed(Meaning(t)), Meaning(t) != [])
  {
    assert stack[..|stack|] == stack && t[..|t|] == t;
  }

  /** The second pass: copy the components that stay behind what has been written. */
  method CopyComponents(a: array<char>, ghost t: string, p: nat, stack: array<nat>, sp: nat, ghost ups: nat) returns (p': nat)
    requires Holds(a, t, p) && sp <= stack.Length && Found(t, a[..p], stack[..sp], ups, |t|)
    modifies a
    ensures Holds(a, t, p') && Written(a[..p'], Lead(t) + Slashed(Meaning(t)), Meaning(t) != [])
  {
    ghost var st, w := stack[..sp], a[..p];
    p' := p;
    var tp := 0;
    CopyStarts(t, w, st, ups);
    while tp < sp
      invariant 0 <= tp <= sp && Holds(a, t, p') && (tp < sp ==> p' <= st[tp]) && st == stack[..sp]
      invariant Copying(t, a[..p'], st, ups, tp)
    {
      var r := stack[tp];
      StackAt(t, st, |w|, |t|, tp);
      assert t[r] == Piece(t, r)[0];
      CopyWrites(t, a[..p'], st, tp, ups);
      p' := CopyPiece(a, t, p', r);
      tp := tp + 1;
    }
    CopyEnds(t, w, a[..p'], st, ups);
  }

  lemma {:induction false} LastChar(names: seq<string>)
    requires names != [] && Normal(names)
    ensures Join(names) != "" && Join(names)[|Join(names)| - 1] != '/'
    ensures Slashed(names) == Join(names) + "/"
  {
    var k := |names| - 1;
    assert names == names[..k] + [names[k]] && Name(names[k]);
    SlashedAppend(names[..k], names[k]);
    JoinSlashed(names);
    var all := Slashed(names);
    assert all[|all| - 2] == names[k][|names[k]| - 1] && all[|all| - 2] == Join(names)[|Join(names)| - 1];
  }

  lemma {:induction false} Strip(t: string, w: string)
    requires Written(w, Lead(t) + Slashed(Meaning(t)), Meaning(t) != [])
    ensures Flat(t) == if |w| > 1 && w[|w| - 1] == '/' then w[..|w| - 1] else w
  {
    MeaningIsNormal(t);
    var names, flat := Meaning(t), Flat(t);
    if names != [] {
      LastChar(names);
      assert Lead(t) + Slashed(names) == flat + "/";
      assert (flat + "/")[..|flat|] == flat && (w + "/")[..|w|] == w;
      assert flat[|flat| - 1] == Join(names)[|Join(names)| - 1];
    }
  }

  /** The last slash goes. */
  method StripSlash(a: array<char>, ghost t: string, p: nat) returns (m: nat)
    requires Holds(a, t, p) && Written(a[..p], Lead(t) + Slashed(Meaning(t)), Meaning(t) != [])
    modifies a
    ensures m <= |t| < a.Length && a[m] == '\0' && a[..m] == Flat(t)
  {
    Strip(t, a[..p]);
    m := p;
    if m > 1 && a[m - 1] == '/' { m := m - 1; }
    assert a[..m] == Flat(t);
    a[m] := '\0';
  }

  /** string_flatten, in a buffer that holds the path.  If more components are pending at once than the
    * stack has room for, the program writes behind it. */
  method FlattenInPlace(a: array<char>, n: nat) returns (room: bool, m: nat)
    requires n < a.Length && a[n] == '\0' && (forall i :: 0 <= i < n ==> a[i] != '\0')
    modifies a
    ensures room <==> Fits(old(a[..n]))
    ensures room ==> m <= n && a[m] == '\0' && a[..m] == Flat(old(a[..n]))
  {
    ghost var t := a[..n];
    var stack := new nat[STACK_SIZE];
    var p, sp;
    ghost var ups;
    m := 0;
    room, p, sp, ups := FindComponents(a, t, stack);
    if room {
      m := CopyComponents(a, t, p, stack, sp, ups);
      m := StripSlash(a, t, m);
    }
  }

  /** string_flatten; None if the program writes behind its stack. */
  method StringFlatten(path: string) returns (result: Option<string>)
    requires forall i :: 0 <= i < |path| ==> path[i] != '\0'
    ensures result == if Fits(path) then Some(Flat(path)) else None
  {
    var n := |path|;
    var a := new char[n + 1](i => if 0 <= i < n then path[i] else '\0');
    assert a[..n] == path;
    var room, m := FlattenInPlace(a, n);
    result := if room then Some(a[..m]) else None;
  }
}
