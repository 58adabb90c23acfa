/** The chained hash table that doubles when it is full, and the interned strings that are its keys. */
module HashTable {
  const REBUILD_LIMIT := 8
  const WORD := 0x1_0000_0000

  // ------------------------------------------------------------------ hashing

  /** One character of string_setup, in unsigned arithmetic of 32 bits. */
  function Mix(h: nat, c: char): (r: nat)
    ensures r < WORD
  {
    ((h * 32) % WORD - h + c as int) % WORD
  }

  function HashOf(data: string): (h: nat)
    ensures h < WORD
  {
    if data == "" then 0 else Mix(HashOf(data[..|data| - 1]), data[|data| - 1])
  }

  /** The bits that a and b have in common. */
  function And(a: nat, b: nat): (r: nat)
    ensures r <= b
    decreases b
  {
    if b == 0 then 0 else 2 * And(a / 2, b / 2) + (a % 2) * (b % 2)
  }

  predicate PowerOfTwo(n: nat) {
    n == 1 || (n > 1 && n % 2 == 0 && PowerOfTwo(n / 2))
  }

  lemma AtLeast(k: int, d: nat)
    requires k >= 1
    ensures k * d >= d
  {
    assert (k - 1) * d >= 0;
  }

  lemma Remainder(h: nat, d: nat, q: nat, r: nat)
    requires d > 0 && r < d && h == q * d + r
    ensures h % d == r
  {
    var p := h / d;
    assert (p - q) * d == p * d - q * d;
    assert (q - p) * d == q * d - p * d;
    if p > q {
      AtLeast(p - q, d);
    } else if q > p {
      AtLeast(q - p, d);
    }
  }

  lemma HalfRemainder(h: nat, n: nat)
    requires n > 0
    ensures h % (2 * n) == 2 * ((h / 2) % n) + h % 2
  {
    var q, r := (h / 2) / n, (h / 2) % n;
    assert h / 2 == q * n + r;
    assert q * (2 * n) == 2 * (q * n);
    Remainder(h, 2 * n, q, 2 * r + h % 2);
  }

  /** The mask of a table whose size is a power of two selects among all its buckets. */
  lemma {:induction false} MaskIsRemainder(h: nat, size: nat)
    requires PowerOfTwo(size)
    ensures And(h, size - 1) == h % size < size
    decreases size
  {
    if size > 1 {
      MaskIsRemainder(h / 2, size / 2);
      assert (size - 1) / 2 == size / 2 - 1 && (size - 1) % 2 == 1;
      HalfRemainder(h, size / 2);
    }
  }

  // ------------------------------------------------------------------ entries

  /** A string; its address is its handle. */
  class Str {
    const data: string
    const hashval: nat
    var refCount: int

    constructor (data: string, hashval: nat)
      ensures this.data == data && this.hashval == hashval && refCount == 1
    {
      this.data, this.hashval, refCount := data, hashval, 1;
    }
  }

  class Entry {
    const name: Str
    var next: Entry?

    constructor (name: Str)
      ensures this.name == name
    {
      this.name := name;
    }
  }

  ghost function At(chain: seq<Entry>, k: nat): Entry? {
    if k < |chain| then chain[k] else null
  }

  /** The pointers spell out the chains: each bucket points at the first entry of its chain and each
    * entry at the one after it. */
  ghost predicate Linked(buckets: array<Entry?>, chains: seq<seq<Entry>>, entries: set<Entry>)
    reads buckets, entries
  {
    && buckets.Length == |chains|
    && (forall b :: 0 <= b < |chains| ==> buckets[b] == At(chains[b], 0))
    && (forall b :: 0 <= b < |chains| ==> ChainLinked(chains[b], entries))
  }

  ghost predicate ChainLinked(chain: seq<Entry>, entries: set<Entry>)
    reads entries
  {
    forall k {:trigger chain[k].next} :: 0 <= k < |chain| ==>
      chain[k] in entries && chain[k].next == At(chain, k + 1)
  }

  /** The bucket that a string's hash value selects among n. */
  function Home(s: Str, n: nat): (b: nat)
    ensures n > 0 ==> b < n
  {
    if n == 0 then 0 else s.hashval % n
  }

  /** Each entry is in the bucket that its hash value selects. */
  ghost predicate Placed(chains: seq<seq<Entry>>) {
    forall b, k :: 0 <= b < |chains| && 0 <= k < |chains[b]| ==>
      Home(chains[b][k].name, |chains|) == b
  }

  /** No entry is in a chain twice. */
  ghost predicate Once(chains: seq<seq<Entry>>) {
    forall b :: 0 <= b < |chains| ==> Distinct(chains[b])
  }

  ghost predicate Distinct(chain: seq<Entry>) {
    forall j, k :: 0 <= j < k < |chain| ==> chain[j] != chain[k]
  }

  /** The chains hold the entries of the table, and no others. */
  ghost predicate Chained(chains: seq<seq<Entry>>, entries: set<Entry>) {
    && (forall b, k :: 0 <= b < |chains| && 0 <= k < |chains[b]| ==> chains[b][k] in entries)
    && (forall e {:trigger e in chains[Home(e.name, |chains|)]} ::
          e in entries && |chains| > 0 ==> e in chains[Home(e.name, |chains|)])
  }

  /** The entries are filed under their own names. */
  ghost predicate Named(contents: map<Str, Entry>, entries: set<Entry>) {
    && (forall s {:trigger contents[s]} :: s in contents ==> contents[s] in entries && contents[s].name == s)
    && (forall e :: e in entries ==> e.name in contents && contents[e.name] == e)
  }

  // ------------------------------------------------------------------ the table

  class Table {
    var bucketPtr: array<Entry?>
    var size: nat
    var numEntries: nat
    var mask: nat
    ghost var chains: seq<seq<Entry>>
    ghost var entries: set<Entry>
    ghost var contents: map<Str, Entry>

    /** The pointers, the chains and the contents agree, and the table is not overfull. */
    ghost predicate Valid()
      reads this, bucketPtr, entries
    {
      && size >= 2 && PowerOfTwo(size) && mask == size - 1 && size == |chains|
      && numEntries == |contents| <= REBUILD_LIMIT * size
      && Linked(bucketPtr, chains, entries)
      && Placed(chains) && Once(chains) && Chained(chains, entries)
      && Named(contents, entries)
    }

    /** Each bucket points at the first entry of its chain. */
    ghost predicate Headed()
      reads this, bucketPtr
    {
      && size == bucketPtr.Length == |chains|
      && forall b :: 0 <= b < size ==> bucketPtr[b] == At(chains[b], 0)
    }

    /** Hash_InitTable. */
    constructor (numBuckets: int)
      ensures Valid() && contents == map[] && entries == {} && fresh(bucketPtr)
      ensures numBuckets <= 0 ==> size == 16
      ensures numBuckets > 0 ==> size >= numBuckets && (size == 2 || size < 2 * numBuckets)
    {
      var i := 16;
      assert PowerOfTwo(16) by { assert PowerOfTwo(1) && PowerOfTwo(2) && PowerOfTwo(4) && PowerOfTwo(8); }
      if numBuckets > 0 {
        i := 2;
        while i < numBuckets
          invariant 2 <= i && PowerOfTwo(i) && (i == 2 || i < 2 * numBuckets)
          decreases numBuckets - i
        {
          i := i * 2;
        }
      }
      numEntries, size, mask, contents, entries := 0, i, i - 1, map[], {};
      chains := seq(i, _ => []);
      bucketPtr := new Entry?[i](_ => null);
    }

    /** Hash_FindEntry: the entry with this very string as its name. */
    method FindEntry(key: Str) returns (e: Entry?)
      requires Valid()
      ensures e == if key in contents then contents[key] else null
    {
      var b := And(key.hashval, mask);
      MaskIsRemainder(key.hashval, size);
      assert key in contents ==> contents[key] in chains[Home(contents[key].name, |chains|)];
      e := bucketPtr[b];
      ghost var k := 0;
      while e != null
        invariant k <= |chains[b]| && e == At(chains[b], k)
        invariant forall j :: 0 <= j < k ==> chains[b][j].name != key
        decreases |chains[b]| - k
      {
        if e.name == key { return; }
        e := e.next;
        k := k + 1;
      }
    }

    /** Hash_FindString: a name with the same hash value, length and characters. */
    method FindString(data: string, hashval: nat) returns (s: Str?)
      requires Valid()
      ensures s != null ==> s in contents && s.hashval == hashval && s.data == data
      ensures s == null ==> forall x :: x in contents && x.hashval == hashval ==> x.data != data
    {
      var b := And(hashval, mask);
      MaskIsRemainder(hashval, size);
      var e := bucketPtr[b];
      ghost var k := 0;
      while e != null
        invariant k <= |chains[b]| && e == At(chains[b], k)
        invariant forall j :: 0 <= j < k ==> !(chains[b][j].name.hashval == hashval && chains[b][j].name.data == data)
        decreases |chains[b]| - k
      {
        var en := e.name;
        if en.hashval == hashval && |en.data| == |data| && en.data == data { return en; }
        e := e.next;
        k := k + 1;
      }
      s := null;
      forall x | x in contents && x.hashval == hashval ensures x.data != data {
        assert contents[x] in chains[Home(contents[x].name, |chains|)];
      }
    }

    /** RebuildTable: twice as many buckets; the entries are moved, chain by chain, and the contents
      * stay. */
    method RebuildTable()
      requires Valid()
      modifies this, entries
      ensures Valid() && fresh(bucketPtr)
      ensures contents == old(contents) && entries == old(entries) && numEntries == old(numEntries)
      ensures size == 2 * old(size)
    {
      assert PowerOfTwo(2 * size);
      var hp := Buckets(2 * size);
      ghost var was, all := chains, entries;
      ghost var cs := MoveChains(bucketPtr, size, hp, 2 * size - 1, was, all);
      assert entries == all && Named(contents, all) && numEntries == |contents| <= REBUILD_LIMIT * size;
      Install(hp, cs);
    }

    /** The new buckets take the place of the old ones. */
    method Install(hp: array<Entry?>, ghost cs: seq<seq<Entry>>)
      requires size >= 2 && PowerOfTwo(size) && numEntries == |contents| <= REBUILD_LIMIT * size && Named(contents, entries)
      requires Linked(hp, cs, entries) && Placed(cs) && Once(cs) && Chained(cs, entries)
      requires hp.Length == 2 * size
      modifies this
      ensures Valid() && bucketPtr == hp
      ensures contents == old(contents) && entries == old(entries) && numEntries == old(numEntries) && size == 2 * old(size)
    {
      bucketPtr, size, mask, chains := hp, 2 * size, 2 * size - 1, cs;
    }

    /** Hash_CreateString's linking, and Hash_CreateEntry's: a new entry at the head of its chain. */
    method Link(e: Entry)
      requires Valid() && e.name !in contents && e !in entries
      modifies this, bucketPtr, entries, e`next
      ensures Valid() && (bucketPtr == old(bucketPtr) || fresh(bucketPtr))
      ensures entries == old(entries) + {e}
      ensures contents == old(contents)[e.name := e] && numEntries == old(numEntries) + 1
      ensures size == if old(numEntries) >= REBUILD_LIMIT * old(size) then 2 * old(size) else old(size)
    {
      if numEntries >= REBUILD_LIMIT * size {
        RebuildTable();
      }
      LinkHead(e);
    }

    method LinkHead(e: Entry)
      requires Valid() && e.name !in contents && e !in entries
      requires numEntries < REBUILD_LIMIT * size
      modifies this, bucketPtr, e`next
      ensures Valid() && bucketPtr == old(bucketPtr) && size == old(size)
      ensures entries == old(entries) + {e}
      ensures contents == old(contents)[e.name := e] && numEntries == old(numEntries) + 1
    {
      MaskIsRemainder(e.name.hashval, size);
      GrownContents(contents, entries, e);
      ghost var cs := Push(bucketPtr, And(e.name.hashval, mask), e, chains, entries);
      Record(numEntries + 1, cs, contents[e.name := e], entries + {e});
    }

    /** The count, and what it counts, after a chain has changed. */
    method Record(n: nat, ghost cs: seq<seq<Entry>>, ghost m: map<Str, Entry>, ghost es: set<Entry>)
      requires size >= 2 && PowerOfTwo(size) && mask == size - 1 && size == |cs|
      requires n == |m| <= REBUILD_LIMIT * size
      requires Linked(bucketPtr, cs, es) && Placed(cs) && Once(cs) && Chained(cs, es) && Named(m, es)
      modifies `numEntries, `chains, `contents, `entries
      ensures Valid() && numEntries == n && contents == m && entries == es
    {
      numEntries, chains, contents, entries := n, cs, m, es;
    }

    /** Hash_CreateString: an entry for a string that has none. */
    method CreateString(str: Str)
      requires Valid() && str !in contents
      modifies this, bucketPtr, entries
      ensures Valid() && (bucketPtr == old(bucketPtr) || fresh(bucketPtr))
      ensures str in contents && contents == old(contents)[str := contents[str]]
      ensures fresh(contents[str]) && entries == old(entries) + {contents[str]}
    {
      var e := new Entry(str);
      Link(e);
    }

    /** Hash_CreateEntry: the entry of the key, made if there was none; a new entry holds a reference
      * to its name. */
    method CreateEntry(key: Str) returns (e: Entry, isNew: bool)
      requires Valid()
      modifies this, bucketPtr, entries, key`refCount
      ensures Valid() && (bucketPtr == old(bucketPtr) || fresh(bucketPtr))
      ensures isNew <==> key !in old(contents)
      ensures e.name == key && contents == old(contents)[key := e]
      ensures isNew ==> fresh(e)
      ensures key.refCount == old(key.refCount) + if isNew then 1 else 0
    {
      var found := FindEntry(key);
      if found != null {
        return found, false;
      }
      isNew := true;
      e := new Entry(key);
      key.refCount := key.refCount + 1;
      Link(e);
    }

    /** Hash_DeleteEntry: the entry, if there is one, is unlinked from its chain; an entry that is not
      * in the table is a bad call, and ends the program. The reference to the name is kept. */
    method DeleteEntry(e: Entry?) returns (ok: bool)
      requires Valid()
      modifies this, bucketPtr, entries
      ensures ok <==> e == null || e in old(entries)
      ensures Valid() && bucketPtr == old(bucketPtr) && size == old(size)
      ensures contents == if ok && e != null then old(contents) - {e.name} else old(contents)
      ensures entries == if e == null then old(entries) else old(entries) - {e}
    {
      if e == null { return true; }
      var b := And(e.name.hashval, mask);
      MaskIsRemainder(e.name.hashval, size);
      assert e in entries ==> e in chains[Home(e.name, |chains|)];
      var prev: Entry?, p := null, bucketPtr[b];
      ghost var k := 0;
      while p != null && p != e
        invariant k <= |chains[b]| && p == At(chains[b], k)
        invariant prev == if k == 0 then null else chains[b][k - 1]
        invariant forall j :: 0 <= j < k ==> chains[b][j] != e
        decreases |chains[b]| - k
      {
        prev, p := p, p.next;
        k := k + 1;
      }
      ok := p != null;
      if ok {
        Unlink(b, k, prev, e);
      }
    }

    method Unlink(b: nat, ghost k: nat, prev: Entry?, e: Entry)
      requires Valid() && b < size && k < |chains[b]| && e == chains[b][k]
      requires prev == if k == 0 then null else chains[b][k - 1]
      modifies this, bucketPtr, entries
      ensures Valid() && bucketPtr == old(bucketPtr) && size == old(size)
      ensures contents == old(contents) - {e.name} && entries == old(entries) - {e}
    {
      CutFiles(b, k, chains, entries);
      CutContents(contents, entries, e);
      Bypass(bucketPtr, b, k, prev, e, chains, entries);
      Record(numEntries - 1, chains[b := Cut(chains[b], k)], contents - {e.name}, entries - {e});
    }
  }

  /** The pointer to an entry, in its bucket or in the entry before it, is moved on to the one after. */
  method Bypass(hp: array<Entry?>, b: nat, ghost k: nat, prev: Entry?, e: Entry,
                ghost chains: seq<seq<Entry>>, ghost entries: set<Entry>)
    requires Linked(hp, chains, entries) && Placed(chains) && Once(chains) && Chained(chains, entries)
    requires b < |chains| && k < |chains[b]| && e == chains[b][k]
    requires prev == if k == 0 then null else chains[b][k - 1]
    modifies hp, prev
    ensures Linked(hp, chains[b := Cut(chains[b], k)], entries - {e})
  {
    CutFiles(b, k, chains, entries);
    if prev == null {
      hp[b] := e.next;
    } else {
      BypassNext(hp, b, k, prev, e, chains, entries);
    }
  }

  method BypassNext(hp: array<Entry?>, b: nat, ghost k: nat, prev: Entry, e: Entry,
                    ghost chains: seq<seq<Entry>>, ghost entries: set<Entry>)
    requires Linked(hp, chains, entries) && Placed(chains) && Once(chains) && Chained(chains, entries)
    requires b < |chains| && 0 < k < |chains[b]| && e == chains[b][k] && prev == chains[b][k - 1]
    modifies prev
    ensures Linked(hp, chains[b := Cut(chains[b], k)], entries - {e})
  {
    MembersOf(chains, entries, b);
    prev.next := e.next;
    CutChain(chains[b], k, prev, entries);
  }

  /** The chain without an entry is linked, once the pointer before that entry has been moved on. */
  lemma CutChain(chain: seq<Entry>, k: nat, prev: Entry, entries: set<Entry>)
    requires 0 < k < |chain| && Distinct(chain) && prev == chain[k - 1]
    requires forall j :: 0 <= j < |chain| ==> chain[j] in entries
    requires forall j {:trigger chain[j].next} :: 0 <= j < |chain| && j != k - 1 ==> chain[j].next == At(chain, j + 1)
    requires prev.next == At(chain, k + 1)
    ensures ChainLinked(Cut(chain, k), entries - {chain[k]})
  {
    var shorter := Cut(chain, k);
    forall j | 0 <= j < |shorter|
      ensures shorter[j] in entries - {chain[k]} && shorter[j].next == At(shorter, j + 1)
    {
      assert shorter[j] == if j < k then chain[j] else chain[j + 1];
    }
  }

  ghost function Cut(chain: seq<Entry>, k: nat): seq<Entry>
    requires k < |chain|
  {
    chain[..k] + chain[k + 1..]
  }

  lemma CutFiles(b: nat, k: nat, chains: seq<seq<Entry>>, entries: set<Entry>)
    requires Placed(chains) && Once(chains) && Chained(chains, entries)
    requires b < |chains| && k < |chains[b]|
    ensures Placed(chains[b := Cut(chains[b], k)]) && Once(chains[b := Cut(chains[b], k)])
    ensures Chained(chains[b := Cut(chains[b], k)], entries - {chains[b][k]})
  {
    var e, shorter := chains[b][k], Cut(chains[b], k);
    assert forall j :: 0 <= j < |shorter| ==> shorter[j] == chains[b][if j < k then j else j + 1];
    forall x | x in chains[b] && x != e ensures x in shorter {
      var j :| 0 <= j < |chains[b]| && chains[b][j] == x;
      assert j < k ==> shorter[j] == x;
      assert j > k ==> shorter[j - 1] == x;
    }
  }

  lemma CutContents(contents: map<Str, Entry>, entries: set<Entry>, e: Entry)
    requires Named(contents, entries) && e in entries
    ensures |contents - {e.name}| == |contents| - 1
    ensures Named(contents - {e.name}, entries - {e})
  {
    assert (contents - {e.name}).Keys == contents.Keys - {e.name};
  }

  lemma GrownContents(contents: map<Str, Entry>, entries: set<Entry>, e: Entry)
    requires Named(contents, entries) && e.name !in contents
    ensures |contents[e.name := e]| == |contents| + 1
    ensures Named(contents[e.name := e], entries + {e})
  {
    assert contents[e.name := e].Keys == contents.Keys + {e.name};
  }

  method Buckets(n: nat) returns (hp: array<Entry?>)
    ensures fresh(hp) && hp.Length == n
    ensures forall b :: 0 <= b < n ==> hp[b] == null
  {
    hp := new Entry?[n](_ => null);
  }

  /** Put an entry at the head of a bucket's chain. */
  method Push(hp: array<Entry?>, b: nat, e: Entry, ghost chains: seq<seq<Entry>>, ghost entries: set<Entry>)
    returns (ghost after: seq<seq<Entry>>)
    requires Linked(hp, chains, entries) && Chained(chains, entries) && Placed(chains) && Once(chains)
    requires e !in entries && |chains| > 0 && b == Home(e.name, |chains|)
    modifies hp, e`next
    ensures after == chains[b := [e] + chains[b]]
    ensures Linked(hp, after, entries + {e}) && Chained(after, entries + {e}) && Placed(after) && Once(after)
  {
    PushFiles(b, e, chains, entries);
    after := chains[b := [e] + chains[b]];
    e.next := hp[b];
    hp[b] := e;
    assert forall k {:trigger after[b][k].next} :: 0 < k < |after[b]| ==> after[b][k] == chains[b][k - 1];
  }

  lemma PushFiles(b: nat, e: Entry, chains: seq<seq<Entry>>, entries: set<Entry>)
    requires Chained(chains, entries) && Placed(chains) && Once(chains)
    requires e !in entries && |chains| > 0 && b == Home(e.name, |chains|)
    ensures Chained(chains[b := [e] + chains[b]], entries + {e})
    ensures Placed(chains[b := [e] + chains[b]]) && Once(chains[b := [e] + chains[b]])
  {
    var longer := [e] + chains[b];
    assert forall k :: 0 < k < |longer| ==> longer[k] == chains[b][k - 1];
    assert forall x :: x in chains[b] ==> x in longer;
  }

  /** All the chains of the old table, bucket after bucket. */
  method MoveChains(oldhp: array<Entry?>, oldsize: nat, hp: array<Entry?>, mask: nat,
                    ghost was: seq<seq<Entry>>, ghost all: set<Entry>)
    returns (ghost cs: seq<seq<Entry>>)
    requires oldhp.Length == oldsize == |was| > 0 && hp != oldhp && PowerOfTwo(hp.Length) && mask == hp.Length - 1
    requires Linked(oldhp, was, all) && Placed(was) && Once(was) && Chained(was, all)
    requires forall b :: 0 <= b < hp.Length ==> hp[b] == null
    modifies hp, all
    ensures Linked(hp, cs, all) && Placed(cs) && Once(cs) && Chained(cs, all)
  {
    cs := seq(hp.Length, _ => []);
    ghost var moved: set<Entry> := {};
    var i := 0;
    while i < oldsize
      invariant i <= oldsize && hp.Length == |cs|
      invariant Linked(hp, cs, moved) && Placed(cs) && Once(cs) && Chained(cs, moved)
      invariant forall b :: i <= b < oldsize ==> oldhp[b] == At(was[b], 0) && ChainLinked(was[b], all)
      invariant forall x :: x in moved <==> x in all && Home(x.name, oldsize) < i
    {
      MembersOf(was, all, i);
      cs, moved := MoveChain(oldhp[i], was[i], all, hp, mask, cs, moved);
      i := i + 1;
    }
    assert moved == all;
  }

  lemma MembersOf(chains: seq<seq<Entry>>, all: set<Entry>, i: nat)
    requires Placed(chains) && Chained(chains, all) && i < |chains|
    ensures forall x :: x in chains[i] <==> x in all && Home(x.name, |chains|) == i
    ensures forall b, k :: 0 <= b < |chains| && b != i && 0 <= k < |chains[b]| ==> chains[b][k] !in chains[i]
  {
  }

  /** One entry of a chain; the next one is returned. */
  method MoveEntry(e: Entry, ghost chain: seq<Entry>, ghost k: nat, hp: array<Entry?>, mask: nat,
                   ghost chains: seq<seq<Entry>>, ghost moved: set<Entry>)
    returns (next: Entry?, ghost after: seq<seq<Entry>>, ghost movedAfter: set<Entry>)
    requires k < |chain| && e == chain[k] && Distinct(chain) && e !in moved
    requires forall j {:trigger chain[j].next} :: k <= j < |chain| ==> chain[j].next == At(chain, j + 1)
    requires Linked(hp, chains, moved) && Chained(chains, moved) && Placed(chains) && Once(chains) && |chains| > 0
    requires PowerOfTwo(hp.Length) && mask == hp.Length - 1
    modifies hp, e`next
    ensures next == At(chain, k + 1) && |after| == |chains| && movedAfter == moved + {e}
    ensures forall j {:trigger chain[j].next} :: k < j < |chain| ==> chain[j].next == At(chain, j + 1)
    ensures Linked(hp, after, movedAfter) && Chained(after, movedAfter) && Placed(after) && Once(after)
  {
    next := e.next;
    MaskIsRemainder(e.name.hashval, hp.Length);
    after := Push(hp, And(e.name.hashval, mask), e, chains, moved);
    movedAfter := moved + {e};
  }

  /** One chain of the old table, from its first entry on. */
  method MoveChain(first: Entry?, ghost chain: seq<Entry>, ghost all: set<Entry>, hp: array<Entry?>, mask: nat,
                   ghost chains: seq<seq<Entry>>, ghost moved: set<Entry>)
    returns (ghost after: seq<seq<Entry>>, ghost movedAfter: set<Entry>)
    requires first == At(chain, 0) && ChainLinked(chain, all) && Distinct(chain)
    requires forall k :: 0 <= k < |chain| ==> chain[k] !in moved
    requires Linked(hp, chains, moved) && Chained(chains, moved) && Placed(chains) && Once(chains) && |chains| > 0
    requires PowerOfTwo(hp.Length) && mask == hp.Length - 1
    modifies hp, chain
    ensures |after| == |chains| && movedAfter == moved + (set e | e in chain)
    ensures Linked(hp, after, movedAfter) && Chained(after, movedAfter) && Placed(after) && Once(after)
  {
    after, movedAfter := chains, moved;
    var e := first;
    ghost var k := 0;
    while e != null
      invariant k <= |chain| && e == At(chain, k) && |after| == |chains|
      invariant forall j {:trigger chain[j].next} :: k <= j < |chain| ==> chain[j].next == At(chain, j + 1)
      invariant forall j :: 0 <= j < |chain| ==> (chain[j] in movedAfter <==> j < k)
      invariant moved <= movedAfter && forall x :: x in movedAfter && x !in moved ==> x in chain
      invariant Linked(hp, after, movedAfter) && Chained(after, movedAfter) && Placed(after) && Once(after)
      decreases |chain| - k
    {
      e, after, movedAfter := MoveEntry(e, chain, k, hp, mask, after, movedAfter);
      k := k + 1;
    }
  }

  // ------------------------------------------------------------------ enumeration

  /** The entries, bucket after bucket. */
  ghost function Concat(chains: seq<seq<Entry>>): seq<Entry> {
    if chains == [] then [] else chains[0] + Concat(chains[1..])
  }

  /** Where an enumeration is: an entry of a chain, and the next bucket to look at. */
  class Search {
    const tablePtr: Table
    var nextIndex: nat
    var hashEntryPtr: Entry?
    ghost var bucket: nat
    ghost var at: nat
    ghost var given: seq<Entry>

    /** What is still to be given: the rest of the chain, and the buckets from the next one on. */
    ghost function Left(): seq<Entry>
      reads this, tablePtr
      requires nextIndex <= |tablePtr.chains|
    {
      ChainLeft() + Concat(tablePtr.chains[nextIndex..])
    }

    ghost function ChainLeft(): seq<Entry>
      reads this, tablePtr
    {
      if hashEntryPtr != null && bucket < |tablePtr.chains| && at < |tablePtr.chains[bucket]|
      then tablePtr.chains[bucket][at + 1..] else []
    }

    /** What has been given and what is left are all the entries. */
    ghost predicate Placed()
      reads this, tablePtr
    {
      && nextIndex <= |tablePtr.chains|
      && (hashEntryPtr != null ==>
           bucket < |tablePtr.chains| && at < |tablePtr.chains[bucket]|
           && hashEntryPtr == tablePtr.chains[bucket][at])
      && given + Left() == Concat(tablePtr.chains)
    }

    ghost predicate Valid()
      reads this, tablePtr, tablePtr.bucketPtr, tablePtr.entries
    {
      tablePtr.Valid() && Placed()
    }

    /** Hash_EnumFirst, up to the call of Hash_EnumNext. */
    constructor (t: Table)
      requires t.Valid()
      ensures Valid() && tablePtr == t && given == []
    {
      tablePtr, nextIndex, hashEntryPtr := t, 0, null;
      bucket, at, given := 0, 0, [];
      new;
      assert t.chains[0..] == t.chains;
    }

    /** Hash_EnumNext: the first of the entries that are left. */
    method EnumNext() returns (e: Entry?)
      requires Valid()
      modifies this
      ensures Valid()
      ensures e == null <==> old(Left()) == []
      ensures given == if e == null then old(given) else old(given) + [e]
    {
      assert tablePtr.Headed();
      assert hashEntryPtr != null ==> ChainLinked(tablePtr.chains[bucket], tablePtr.entries);
      e := Next();
    }

    method Next() returns (e: Entry?)
      requires tablePtr.Headed() && Placed()
      requires hashEntryPtr != null ==> hashEntryPtr.next == At(tablePtr.chains[bucket], at + 1)
      modifies this
      ensures Placed()
      ensures e == null <==> old(Left()) == []
      ensures given == if e == null then old(given) else old(given) + [e]
    {
      e := hashEntryPtr;
      if e != null {
        e := e.next;
      }
      if e != null {
        Give(e, bucket, at + 1);
      } else {
        e := FromChains();
      }
    }

    /** The chain has run out: the next one that is not empty. */
    method FromChains() returns (e: Entry?)
      requires tablePtr.Headed() && Placed() && ChainLeft() == []
      modifies this
      ensures Placed()
      ensures e == null <==> old(Left()) == []
      ensures given == if e == null then old(given) else old(given) + [e]
    {
      assert Left() == Concat(tablePtr.chains[nextIndex..]);
      ghost var b;
      e, b := NextChain();
      if e != null {
        Give(e, b, 0);
      }
    }

    /** The next chain that is not empty. */
    method NextChain() returns (e: Entry?, ghost b: nat)
      requires tablePtr.Headed() && nextIndex <= |tablePtr.chains|
      modifies `nextIndex
      ensures nextIndex <= |tablePtr.chains|
      ensures e == null ==> Concat(tablePtr.chains[old(nextIndex)..]) == [] && nextIndex == |tablePtr.chains|
      ensures e != null ==> b < |tablePtr.chains| && tablePtr.chains[b] != [] && e == tablePtr.chains[b][0]
      ensures e != null ==>
        Concat(tablePtr.chains[old(nextIndex)..]) == tablePtr.chains[b][0..] + Concat(tablePtr.chains[nextIndex..])
    {
      e, b := null, 0;
      while e == null && nextIndex < tablePtr.size
        invariant nextIndex <= |tablePtr.chains|
        invariant e == null ==> Concat(tablePtr.chains[old(nextIndex)..]) == Concat(tablePtr.chains[nextIndex..])
        invariant e != null ==> b < |tablePtr.chains| && tablePtr.chains[b] != [] && e == tablePtr.chains[b][0]
        invariant e != null ==>
          Concat(tablePtr.chains[old(nextIndex)..]) == tablePtr.chains[b] + Concat(tablePtr.chains[nextIndex..])
        decreases |tablePtr.chains| - nextIndex, if e == null then 1 else 0
      {
        ConcatFrom(tablePtr.chains, nextIndex);
        e, b := tablePtr.bucketPtr[nextIndex], nextIndex;
        nextIndex := nextIndex + 1;
      }
    }

    method Give(e: Entry, ghost b: nat, ghost k: nat)
      requires nextIndex <= |tablePtr.chains|
      requires b < |tablePtr.chains| && k < |tablePtr.chains[b]| && e == tablePtr.chains[b][k]
      requires given + (tablePtr.chains[b][k..] + Concat(tablePtr.chains[nextIndex..])) == Concat(tablePtr.chains)
      modifies `hashEntryPtr, `bucket, `at, `given
      ensures Placed() && given == old(given) + [e]
    {
      ghost var chain := tablePtr.chains[b];
      assert chain[k..] == [e] + chain[k + 1..];
      Shift(given, e, chain[k + 1..], Concat(tablePtr.chains[nextIndex..]));
      hashEntryPtr, bucket, at, given := e, b, k, given + [e];
    }
  }

  lemma Shift(given: seq<Entry>, e: Entry, rest: seq<Entry>, more: seq<Entry>)
    ensures given + (([e] + rest) + more) == (given + [e]) + (rest + more)
  {
  }

  lemma ConcatFrom(chains: seq<seq<Entry>>, i: nat)
    requires i < |chains|
    ensures Concat(chains[i..]) == chains[i] + Concat(chains[i + 1..])
  {
    assert chains[i..][1..] == chains[i + 1..];
  }

  /** Every entry of a table is enumerated, once. */
  lemma {:induction false} EachEntryOnce(chains: seq<seq<Entry>>, entries: set<Entry>)
    requires |chains| > 0 && Placed(chains) && Once(chains) && Chained(chains, entries)
    ensures Distinct(Concat(chains))
    ensures forall e :: e in Concat(chains) <==> e in entries
  {
    assert chains[0..] == chains;
    FromBucket(chains, 0);
  }

  lemma {:induction false} FromBucket(chains: seq<seq<Entry>>, i: nat)
    requires i <= |chains| && Placed(chains) && Once(chains)
    ensures Distinct(Concat(chains[i..]))
    ensures forall e :: e in Concat(chains[i..]) <==>
      i <= Home(e.name, |chains|) < |chains| && e in chains[Home(e.name, |chains|)]
    decreases |chains| - i
  {
    if i < |chains| {
      ConcatFrom(chains, i);
      FromBucket(chains, i + 1);
      AppendDistinct(chains[i], Concat(chains[i + 1..]));
    }
  }

  lemma AppendDistinct(a: seq<Entry>, b: seq<Entry>)
    requires Distinct(a) && Distinct(b) && forall e :: e in b ==> e !in a
    ensures Distinct(a + b)
  {
    forall j, k | 0 <= j < k < |a + b| ensures (a + b)[j] != (a + b)[k] {
      assert k >= |a| ==> (a + b)[k] in b;
      assert j < |a| ==> (a + b)[j] in a;
    }
  }

  /** Hash_EnumFirst and then Hash_EnumNext until it returns nothing. */
  method Enumerate(t: Table) returns (all: seq<Entry>)
    requires t.Valid()
    ensures Distinct(all) && forall e :: e in all <==> e in t.entries
  {
    var search := new Search(t);
    all := [];
    var e := search.EnumNext();
    while e != null
      invariant search.Valid() && search.tablePtr == t && t.Valid()
      invariant if e == null then search.given == all == Concat(t.chains) else search.given == all + [e]
      decreases |Concat(t.chains)| - |all|, if e == null then 0 else 1
    {
      all := all + [e];
      e := search.EnumNext();
    }
    EachEntryOnce(t.chains, t.entries);
  }
}
