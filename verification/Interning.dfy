/** Interned strings: one handle for all the strings with the same characters, as long as any
  * reference to it is held. */
module Interning {
  import opened HashTable

  /** The table of strings, and the handles that are held, as often as they are. */
  class Interner {
    const table: Table
    ghost var strings: map<string, Str>
    ghost var held: multiset<Str>

    ghost predicate Valid()
      reads this, table, table.bucketPtr, table.entries, table.contents.Keys
    {
      table.Valid() && Counted(table.contents, held) && Unlike(table.contents, strings)
    }

    /** Each string of the table is counted as often as it is held. */
    static ghost predicate Counted(contents: map<Str, Entry>, held: multiset<Str>)
      reads contents.Keys
    {
      && (forall s :: s in contents ==> s.refCount == held[s] > 0)
      && (forall s :: s in held ==> s in contents)
    }

    /** No two strings of the table have the same characters. */
    static ghost predicate Unlike(contents: map<Str, Entry>, strings: map<string, Str>) {
      && (forall s :: s in contents ==> s.hashval == HashOf(s.data) && s.data in strings && strings[s.data] == s)
      && (forall d :: d in strings ==> strings[d] in contents && strings[d].data == d)
    }

    /** string_init. */
    constructor ()
      ensures Valid() && strings == map[] && held == multiset{} && fresh(table) && fresh(table.bucketPtr)
    {
      table := new Table(1024);
      strings, held := map[], multiset{};
    }

    /** string_create: the handle that is in use for these characters, or a new one. */
    method StringCreate(cp: string) returns (s: Str)
      requires Valid()
      modifies this, table, table.bucketPtr, table.entries, table.contents.Keys
      ensures Valid() && (table.bucketPtr == old(table.bucketPtr) || fresh(table.bucketPtr))
      ensures s.data == cp && held == old(held) + multiset{s}
      ensures if cp in old(strings) then s == old(strings)[cp] else fresh(s)
      ensures strings == old(strings)[cp := s]
    {
      var h := StringSetup(cp);
      var found := table.FindString(cp, h);
      if found != null {
        StringRef(found);
        return found;
      }
      s := new Str(cp, h);
      Enter(s);
    }

    /** A new string goes into the table. */
    method Enter(s: Str)
      requires Valid() && s !in table.contents && s.data !in strings
      requires s.hashval == HashOf(s.data) && s.refCount == 1
      modifies this, table, table.bucketPtr, table.entries
      ensures Valid() && (table.bucketPtr == old(table.bucketPtr) || fresh(table.bucketPtr))
      ensures held == old(held) + multiset{s} && strings == old(strings)[s.data := s]
    {
      ghost var was := table.contents;
      held, strings := held + multiset{s}, strings[s.data := s];
      table.CreateString(s);
      UnlikeMore(was, old(strings), s, table.contents[s]);
    }

    /** string_ref: one reference more. */
    method StringRef(s: Str)
      requires Valid() && s in table.contents
      modifies `held, s
      ensures Valid() && held == old(held) + multiset{s}
    {
      s.refCount := s.refCount + 1;
      held := held + multiset{s};
    }

    /** string_deref: one reference less; the last one takes the string out of the table. */
    method StringDeref(s: Str)
      requires Valid() && s in held
      modifies this, s, table, table.bucketPtr, table.entries
      ensures Valid() && table.bucketPtr == old(table.bucketPtr)
      ensures held == old(held) - multiset{s}
      ensures s in table.contents <==> old(s.refCount) > 1
      ensures strings == if old(s.refCount) > 1 then old(strings) else old(strings) - {s.data}
    {
      Release(s);
      if s.refCount == 0 {
        Leave(s);
      }
    }

    method Release(s: Str)
      requires Counted(table.contents, held) && s in held
      modifies s, `held
      ensures held == old(held) - multiset{s} && s.refCount == old(s.refCount) - 1
      ensures if s.refCount == 0 then s !in held && Counted(table.contents - {s}, held)
              else Counted(table.contents, held)
    {
      s.refCount := s.refCount - 1;
      held := held - multiset{s};
    }

    method Leave(s: Str)
      requires table.Valid() && s in table.contents && s !in held && Unlike(table.contents, strings)
      requires Counted(table.contents - {s}, held)
      modifies `strings, table, table.bucketPtr, table.entries
      ensures Valid() && table.bucketPtr == old(table.bucketPtr)
      ensures s !in table.contents && strings == old(strings) - {s.data}
    {
      UnlikeLess(table.contents, strings, s);
      strings := strings - {s.data};
      var he := table.FindEntry(s);
      var ok := table.DeleteEntry(he);
    }

    static lemma UnlikeLess(contents: map<Str, Entry>, strings: map<string, Str>, s: Str)
      requires Unlike(contents, strings) && s in contents
      ensures Unlike(contents - {s}, strings - {s.data})
    {
    }

    static lemma UnlikeMore(contents: map<Str, Entry>, strings: map<string, Str>, s: Str, e: Entry)
      requires Unlike(contents, strings) && s !in contents && s.data !in strings && s.hashval == HashOf(s.data)
      ensures Unlike(contents[s := e], strings[s.data := s])
    {
    }

    /** Two handles that are held are the same exactly when their characters are. */
    lemma SameExactlyWhenEqual(a: Str, b: Str)
      requires Valid() && a in held && b in held
      ensures a == b <==> a.data == b.data
    {
    }

    /** A string is in the table exactly as long as it is held. */
    lemma InTableExactlyWhenHeld(s: Str)
      requires Valid()
      ensures s in table.contents <==> s in held
    {
    }
  }

  /** string_setup. */
  method StringSetup(data: string) returns (h: nat)
    ensures h == HashOf(data)
  {
    h := 0;
    var p := 0;
    while p < |data|
      invariant p <= |data| && h == HashOf(data[..p])
    {
      assert data[..p + 1][..p] == data[..p];
      h := Mix(h, data[p]);
      p := p + 1;
    }
    assert data[..p] == data;
  }
}
