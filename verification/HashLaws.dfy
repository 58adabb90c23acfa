/** The hash value of a string is a polynomial in 31 of its characters, modulo the size of a word. */
module HashLaws {
  import opened HashTable

  function Power(n: nat): int {
    if n == 0 then 1 else 31 * Power(n - 1)
  }

  lemma {:induction false} MixIs(h: nat, c: char)
    ensures Mix(h, c) == (31 * h + c as int) % WORD
  {
    var q := (h * 32) / WORD;
    assert (h * 32) % WORD == h * 32 - q * WORD;
    Modulo(31 * h + c as int, -q);
  }

  lemma Modulo(x: int, k: int)
    ensures (x + k * WORD) % WORD == x % WORD
  {
    var q := (x + k * WORD) / WORD;
    assert x == (q - k) * WORD + (x + k * WORD) % WORD;
  }

  /** A single character is its own hash value. */
  lemma {:induction false} HashOfOne(c: char)
    ensures HashOf("") == 0 && HashOf([c]) == c as int
  {
    assert [c][..0] == "";
    MixIs(0, c);
  }

  lemma {:induction false} HashOfMore(s: string, u: string, c: char)
    requires s == u + [c]
    ensures HashOf(s) == (31 * HashOf(u) + c as int) % WORD
  {
    assert s[..|s| - 1] == u;
    MixIs(HashOf(u), c);
  }

  /** The hash value of two texts together. */
  lemma {:induction false} HashOfBoth(a: string, b: string)
    ensures HashOf(a + b) == (HashOf(a) * Power(|b|) + HashOf(b)) % WORD
    decreases |b|
  {
    if b == "" {
      assert a + b == a;
    } else {
      var k := |b| - 1;
      HashOfBoth(a, b[..k]);
      OneMore(a, b[..k], b[k], Power(k), HashOf(a));
      assert b[..k] + [b[k]] == b;
    }
  }

  lemma {:induction false} OneMore(a: string, u: string, c: char, p: int, x: nat)
    requires HashOf(a + u) == (x * p + HashOf(u)) % WORD
    ensures HashOf(a + (u + [c])) == (x * (31 * p) + HashOf(u + [c])) % WORD
  {
    HashOfMore(a + (u + [c]), a + u, c);
    HashOfMore(u + [c], u, c);
    BothMixed(x, p, 31 * p, HashOf(u), c as int, HashOf(a + u), HashOf(u + [c]), HashOf(a + (u + [c])));
  }

  /** Reducing before or after the next character makes no difference. */
  lemma {:induction false} BothMixed(x: int, p: int, p': int, y: int, c: int, m: int, y': int, m': int)
    requires p' == 31 * p && m == (x * p + y) % WORD
    requires y' == (31 * y + c) % WORD && m' == (31 * m + c) % WORD
    ensures m' == (x * p' + y') % WORD
  {
    var z := x * p;
    assert x * p' == 31 * z;
    Reduced(z, y, c);
  }

  lemma Reduced(z: int, y: int, c: int)
    ensures (31 * ((z + y) % WORD) + c) % WORD == (31 * z + (31 * y + c) % WORD) % WORD
  {
    var q, r := (z + y) / WORD, (31 * y + c) / WORD;
    var all := 31 * z + 31 * y + c;
    assert 31 * ((z + y) % WORD) + c == all + (-31 * q) * WORD;
    assert 31 * z + (31 * y + c) % WORD == all + (-r) * WORD;
    Modulo(all, -31 * q);
    Modulo(all, -r);
  }
}
