/** What a path means once "." and "x/.." are gone: a fold over its components. */
module Paths {
  /** The pieces between slashes; an empty piece stands between two slashes in a row. */
  function Split(s: string): (r: seq<string>)
    ensures r != []
  {
    if s == "" then [""]
    else
      var rest := Split(s[1..]);
      if s[0] == '/' then [""] + rest else [[s[0]] + rest[0]] + rest[1..]
  }

  /** One more component: nothing and "." are dropped, ".." cancels a name before it. */
  function Push(done: seq<string>, name: string): seq<string> {
    if name == "" || name == "." then done
    else if name == ".." && done != [] && done[|done| - 1] != ".." then done[..|done| - 1]
    else done + [name]
  }

  function Fold(done: seq<string>, names: seq<string>): seq<string>
    decreases |names|
  {
    if names == [] then done else Fold(Push(done, names[0]), names[1..])
  }

  /** The components a path has in the end. */
  function Meaning(s: string): seq<string> {
    Fold([], Split(s))
  }

  /** Every component followed by a slash. */
  function Slashed(names: seq<string>): string {
    if names == [] then "" else names[0] + "/" + Slashed(names[1..])
  }

  /** The components with slashes between them. */
  function Join(names: seq<string>): string {
    if names == [] then ""
    else if |names| == 1 then names[0]
    else names[0] + "/" + Join(names[1..])
  }

  predicate Absolute(s: string) { s != "" && s[0] == '/' }

  /** The flattened form of a path. */
  function Flat(s: string): string {
    (if Absolute(s) then "/" else "") + Join(Meaning(s))
  }

  // ------------------------------------------------------------ the two joins

  lemma {:induction false} SlashedAppend(names: seq<string>, name: string)
    ensures Slashed(names + [name]) == Slashed(names) + name + "/"
  {
    if names == [] {
      assert [name] == [] + [name];
      assert [name][1..] == [];
    } else {
      assert (names + [name])[1..] == names[1..] + [name];
      SlashedAppend(names[1..], name);
    }
  }

  lemma {:induction false} JoinSlashed(names: seq<string>)
    requires names != []
    ensures Join(names) + "/" == Slashed(names)
  {
    if |names| == 1 {
      assert names[1..] == [];
    } else {
      JoinSlashed(names[1..]);
    }
  }

  // ---------------------------------------------------------- a running fold

  /** The fold over the rest of a text, read character by character: `cur` is the component that is
    * being read. */
  function Scan(done: seq<string>, cur: string, s: string): seq<string>
    decreases |s|
  {
    if s == "" then Push(done, cur)
    else if s[0] == '/' then Scan(Push(done, cur), "", s[1..])
    else Scan(done, cur + [s[0]], s[1..])
  }

  lemma {:induction false} ScanIsFold(done: seq<string>, cur: string, s: string)
    ensures Scan(done, cur, s) == Fold(done, [cur + Split(s)[0]] + Split(s)[1..])
    decreases |s|
  {
    if s == "" {
      assert Split(s)[0] == "" && cur + "" == cur;
      assert [cur] + [] == [cur] && [cur][1..] == [];
    } else if s[0] == '/' {
      var rest := Split(s[1..]);
      ScanIsFold(Push(done, cur), "", s[1..]);
      assert Split(s)[0] == "" && Split(s)[1..] == rest;
      assert cur + "" == cur && ([cur] + rest)[1..] == rest;
      assert "" + rest[0] == rest[0];
      assert [rest[0]] + rest[1..] == rest;
    } else {
      var rest := Split(s[1..]);
      ScanIsFold(done, cur + [s[0]], s[1..]);
      assert cur + [s[0]] + rest[0] == cur + ([s[0]] + rest[0]);
    }
  }

  lemma {:induction false} ScanIsMeaning(s: string)
    ensures Scan([], "", s) == Meaning(s)
  {
    ScanIsFold([], "", s);
    var all := Split(s);
    assert "" + all[0] == all[0];
    assert [all[0]] + all[1..] == all;
  }

  predicate NoSlash(s: string) {
    forall i :: 0 <= i < |s| ==> s[i] != '/'
  }

  /** The text ends where a component may begin. */
  predicate AtStart(s: string) { s == "" || s[|s| - 1] == '/' }

  lemma {:induction false} ScanPiece(done: seq<string>, cur: string, s: string, piece: string)
    requires NoSlash(piece) && AtStart(s) && (s == "" ==> cur == "")
    ensures Scan(done, cur, s + piece) == Push(Scan(done, cur, s), piece)
    decreases |s| + |piece|
  {
    if s != "" {
      assert (s + piece)[1..] == s[1..] + piece;
      if s[0] == '/' {
        ScanPiece(Push(done, cur), "", s[1..], piece);
      } else {
        ScanPiece(done, cur + [s[0]], s[1..], piece);
      }
    } else {
      assert s + piece == piece;
      ScanToEnd(done, "", piece);
      assert "" + piece == piece;
    }
  }

  lemma {:induction false} ScanToEnd(done: seq<string>, cur: string, piece: string)
    requires NoSlash(piece)
    ensures Scan(done, cur, piece) == Push(done, cur + piece)
    decreases |piece|
  {
    if piece == "" {
      assert cur + piece == cur;
    } else {
      assert NoSlash(piece[1..]);
      assert cur + piece == cur + [piece[0]] + piece[1..];
      ScanToEnd(done, cur + [piece[0]], piece[1..]);
    }
  }

  /** A slash at the end adds nothing. */
  lemma {:induction false} ScanTrailingSlash(done: seq<string>, cur: string, s: string)
    ensures Scan(done, cur, s + "/") == Scan(done, cur, s)
    decreases |s|
  {
    if s == "" {
      assert s + "/" == "/" && "/"[1..] == "";
    } else {
      assert (s + "/")[1..] == s[1..] + "/";
      if s[0] == '/' {
        ScanTrailingSlash(Push(done, cur), "", s[1..]);
      } else {
        ScanTrailingSlash(done, cur + [s[0]], s[1..]);
      }
    }
  }

  // ----------------------------------------------------------- normal forms

  predicate Name(s: string) { s != "" && s != "." && NoSlash(s) }

  /** A run of ".." and then names that are not "..". */
  predicate Normal(names: seq<string>) {
    && (forall i :: 0 <= i < |names| ==> Name(names[i]))
    && (forall i :: 0 < i < |names| && names[i] == ".." ==> names[i - 1] == "..")
  }

  lemma {:induction false} PushKeepsNormal(done: seq<string>, name: string)
    requires Normal(done) && NoSlash(name)
    ensures Normal(Push(done, name))
  {
  }

  lemma {:induction false} ScanIsNormal(done: seq<string>, cur: string, s: string)
    requires Normal(done) && NoSlash(cur)
    ensures Normal(Scan(done, cur, s))
    decreases |s|
  {
    if s == "" {
      PushKeepsNormal(done, cur);
    } else if s[0] == '/' {
      PushKeepsNormal(done, cur);
      ScanIsNormal(Push(done, cur), "", s[1..]);
    } else {
      ScanIsNormal(done, cur + [s[0]], s[1..]);
    }
  }

  /** The meaning of a text that has one more component. */
  lemma {:induction false} MeaningGrows(s: string, piece: string)
    requires NoSlash(piece) && AtStart(s)
    ensures Meaning(s + piece) == Push(Meaning(s), piece)
  {
    ScanIsMeaning(s);
    ScanIsMeaning(s + piece);
    ScanPiece([], "", s, piece);
  }

  lemma {:induction false} MeaningOfTrailingSlash(s: string)
    ensures Meaning(s + "/") == Meaning(s)
  {
    ScanIsMeaning(s);
    ScanIsMeaning(s + "/");
    ScanTrailingSlash([], "", s);
  }

  lemma {:induction false} MeaningOfLeadingSlash(s: string)
    ensures Meaning("/" + s) == Meaning(s)
  {
    ScanIsMeaning(s);
    ScanIsMeaning("/" + s);
    assert ("/" + s)[1..] == s;
  }

  /** Reading a normal form back gives it again. */
  lemma {:induction false} MeaningOfSlashed(names: seq<string>)
    requires Normal(names)
    ensures Meaning(Slashed(names)) == names && AtStart(Slashed(names))
    decreases |names|
  {
    if names == [] {
      ScanIsMeaning("");
    } else {
      var k := |names| - 1;
      var init, last := names[..k], names[k];
      assert names == init + [last];
      MeaningOfSlashed(init);
      SlashedAppend(init, last);
      MeaningGrows(Slashed(init), last);
      MeaningOfTrailingSlash(Slashed(init) + last);
      assert k > 0 ==> init[|init| - 1] == names[k - 1];
    }
  }

  lemma {:induction false} MeaningOfJoin(names: seq<string>)
    requires Normal(names)
    ensures Meaning(Join(names)) == names
  {
    if names != [] { JoinSlashed(names); }
    MeaningOfSlashed(names);
    MeaningOfTrailingSlash(Join(names));
  }

  lemma {:induction false} MeaningIsNormal(s: string)
    ensures Normal(Meaning(s))
  {
    ScanIsNormal([], "", s);
    ScanIsMeaning(s);
  }

  /** Flattening twice is flattening once. */
  lemma {:induction false} FlatTwice(s: string)
    ensures Flat(Flat(s)) == Flat(s) && Meaning(Flat(s)) == Meaning(s)
  {
    var names := Meaning(s);
    MeaningIsNormal(s);
    MeaningOfJoin(names);
    MeaningOfLeadingSlash(Join(names));
    if Absolute(s) {
      assert Absolute(Flat(s));
    } else {
      assert Flat(s) == Join(names);
      if names != [] { assert Name(names[0]) && Join(names)[0] == names[0][0]; }
    }
  }

  // ----------------------------------------------------------------- buffers

  function Ups(k: nat): (r: seq<string>)
    ensures |r| == k && forall i :: 0 <= i < k ==> r[i] == ".."
  {
    seq(k, _ => "..")
  }

  lemma {:induction false} SlashedUps(k: nat)
    ensures Slashed(Ups(k + 1)) == Slashed(Ups(k)) + "../"
  {
    assert Ups(k + 1) == Ups(k) + [".."];
    SlashedAppend(Ups(k), "..");
    assert ".." + "/" == "../";
  }

  /** From the index p on, the buffer holds the text t and a null character after it. */
  ghost predicate Holds(a: array<char>, t: string, p: nat)
    reads a
  {
    && |t| < a.Length && a[|t|] == '\0' && p <= |t|
    && (forall i :: 0 <= i < |t| ==> t[i] != '\0')
    && (forall i :: p <= i < |t| ==> a[i] == t[i])
  }
}
