/** What a path means, and its flattened and canonical forms, one component at a time: stated about
  * the text, without the fold.
  */
module PathLaws {
  import opened Paths
  import Canonical

  predicate Plain(x: string) { Name(x) && x != ".." }

  lemma {:induction false} OneMore(s: string, x: string)
    requires NoSlash(x)
    ensures Meaning(s + "/" + x) == Push(Meaning(s), x)
  {
    MeaningOfTrailingSlash(s);
    MeaningGrows(s + "/", x);
  }

  /** A path without a slash. */
  lemma {:induction false} Alone(x: string)
    requires NoSlash(x)
    ensures Meaning(x) == if x == "" || x == "." then [] else [x]
  {
    ScanIsMeaning("");
    MeaningGrows("", x);
    assert "" + x == x;
  }

  /** A name is one more component. */
  lemma {:induction false} NameIsAdded(s: string, x: string)
    requires Plain(x)
    ensures Meaning(s + "/" + x) == Meaning(s) + [x]
  {
    OneMore(s, x);
  }

  /** Slashes in a row are one, and "." says nothing. */
  lemma {:induction false} NothingIsAdded(s: string)
    ensures Meaning(s + "/") == Meaning(s) && Meaning(s + "/" + ".") == Meaning(s)
  {
    OneMore(s, ".");
    MeaningOfTrailingSlash(s);
  }

  /** ".." takes back the name before it. */
  lemma {:induction false} NameAndUp(s: string, x: string)
    requires Plain(x)
    ensures Meaning(s + "/" + x + "/" + "..") == Meaning(s)
  {
    NameIsAdded(s, x);
    OneMore(s + "/" + x, "..");
  }

  /** ".." stays where nothing can be taken back. */
  lemma {:induction false} UpStays(s: string)
    requires var m := Meaning(s); m == [] || m[|m| - 1] == ".."
    ensures Meaning(s + "/" + "..") == Meaning(s) + [".."]
  {
    OneMore(s, "..");
  }

  /** The components with slashes between them are the components again. */
  lemma {:induction false} SplitOfJoin(names: seq<string>)
    requires names != [] && forall i :: 0 <= i < |names| ==> NoSlash(names[i])
    ensures Split(Join(names)) == names
  {
    var x := names[0];
    if |names| == 1 {
      SplitAlone(x);
    } else {
      SplitOfJoin(names[1..]);
      SplitAfter(x, Join(names[1..]));
      assert [x] + names[1..] == names;
    }
  }

  lemma {:induction false} SplitAlone(x: string)
    requires NoSlash(x)
    ensures Split(x) == [x]
  {
    if x != "" {
      SplitAlone(x[1..]);
      assert [x[0]] + x[1..] == x;
    }
  }

  lemma {:induction false} SplitAfter(x: string, s: string)
    requires NoSlash(x)
    ensures Split(x + "/" + s) == [x] + Split(s)
  {
    if x == "" {
      assert (x + "/" + s)[1..] == s;
    } else {
      SplitAfter(x[1..], s);
      assert (x + "/" + s)[1..] == x[1..] + "/" + s;
      assert [x[0]] + x[1..] == x;
    }
  }

  /** The components that are split off join to the path again. */
  lemma {:induction false} JoinOfSplit(s: string)
    ensures Join(Split(s)) == s
  {
    if s != "" {
      var rest := Split(s[1..]);
      JoinOfSplit(s[1..]);
      if s[0] == '/' {
        assert ([""] + rest)[1..] == rest;
      } else {
        assert Split(s)[1..] == rest[1..];
        if |rest| > 1 {
          assert [s[0]] + rest[0] + "/" + Join(rest[1..]) == [s[0]] + (rest[0] + "/" + Join(rest[1..]));
        }
      }
    }
  }

  // ---------------------------------------------------- the flattened text

  lemma {:induction false} JoinOneMore(names: seq<string>, x: string)
    ensures Join(names + [x]) == if names == [] then x else Join(names) + "/" + x
  {
    if |names| == 1 {
      assert (names + [x])[1..] == [x];
    } else if names != [] {
      JoinOneMore(names[1..], x);
      assert (names + [x])[1..] == names[1..] + [x];
    } else {
      assert names + [x] == [x];
    }
  }

  lemma {:induction false} NotEmpty(names: seq<string>)
    requires names != [] && Normal(names)
    ensures Join(names) != "" && Join(names)[0] != '/'
  {
    assert Name(names[0]) && names[0][0] != '/';
  }

  /** A name at the end of a path is at the end of its flattened form. */
  lemma {:induction false} FlatOfName(s: string, x: string)
    requires s != "" && Plain(x)
    ensures Flat(s + "/" + x) == if Flat(s) == "" || Flat(s) == "/" then Flat(s) + x else Flat(s) + "/" + x
  {
    var names := Meaning(s);
    NameIsAdded(s, x);
    MeaningIsNormal(s);
    assert Absolute(s + "/" + x) == Absolute(s);
    LeadAndJoin(if Absolute(s) then "/" else "", names, x);
  }

  lemma {:induction false} LeadAndJoin(lead: string, names: seq<string>, x: string)
    requires Normal(names) && (lead == "" || lead == "/")
    ensures var flat := lead + Join(names);
      lead + Join(names + [x]) == if flat == "" || flat == "/" then flat + x else flat + "/" + x
  {
    JoinOneMore(names, x);
    if names == [] {
      assert lead + Join(names) == lead;
    } else {
      NotEmpty(names);
      Led(lead, Join(names), x);
    }
  }

  lemma {:induction false} Led(lead: string, s: string, x: string)
    requires s != "" && s[0] != '/' && (lead == "" || lead == "/")
    ensures lead + s != "" && lead + s != "/" && lead + (s + "/" + x) == lead + s + "/" + x
  {
    assert |lead + s| > |lead| && (lead + s)[|lead|] == s[0];
  }

  /** What flattening drops: slashes in a row, ".", and a name with the ".." after it. */
  lemma {:induction false} FlatDrops(s: string, x: string)
    requires s != "" && Plain(x)
    ensures Flat(s + "/") == Flat(s + "/" + ".") == Flat(s + "/" + x + "/" + "..") == Flat(s)
  {
    NothingIsAdded(s);
    NameAndUp(s, x);
  }

  /** The shortest paths. */
  lemma {:induction false} FlatAlone(x: string)
    requires NoSlash(x)
    ensures Flat(x) == (if x == "." then "" else x) && Flat("/" + x) == if x == "." then "/" else "/" + x
  {
    Alone(x);
    MeaningOfLeadingSlash(x);
    assert "/" + "" == "/";
  }

  // ----------------------------------------------------- the canonical text

  lemma {:induction false} HeadIs(h: string, r: string)
    requires NoSlash(h)
    ensures Canonical.Head(h + "/" + r) == h && Canonical.Tail(h + "/" + r) == Meaning(r)
  {
    if h == "" {
      assert (h + "/" + r)[1..] == r;
    } else {
      HeadIs(h[1..], r);
      assert (h + "/" + r)[1..] == h[1..] + "/" + r;
      assert [h[0]] + h[1..] == h;
      assert (h + "/" + r)[|h| + 1..] == r;
    }
  }

  /** What stands before the first slash stays, whatever it is, and what stands behind it is
    * flattened; a first component with nothing behind it loses its slash. */
  lemma {:induction false} CanonSays(h: string, r: string)
    requires NoSlash(h)
    ensures Canonical.Canon(h + "/" + r) == if h != "" && Flat("/" + r) == "/" then h else h + Flat("/" + r)
  {
    HeadIs(h, r);
    FlatBehindSlash(r);
    CanonOf(h + "/" + r, h, Meaning(r), Flat("/" + r));
  }

  lemma {:induction false} CanonOf(t: string, h: string, names: seq<string>, flat: string)
    requires Canonical.Head(t) == h && Canonical.Tail(t) == names
    requires flat == "/" + Join(names) && (names == [] <==> flat == "/")
    ensures Canonical.Canon(t) == if h != "" && flat == "/" then h else h + flat
  {
    assert h + "/" + Join(names) == h + ("/" + Join(names));
  }

  lemma {:induction false} FlatBehindSlash(r: string)
    ensures Flat("/" + r) == "/" + Join(Meaning(r)) && (Meaning(r) == [] <==> Flat("/" + r) == "/")
  {
    MeaningOfLeadingSlash(r);
    MeaningIsNormal(r);
    if Meaning(r) != [] { NotEmpty(Meaning(r)); }
  }
}
