/**
 * Byte-vector comparison: C's `memcmp` and the `operator<` the plugin
 * declares on byte vectors (MockDrmCryptoPlugin.cpp:364-366).
 */
module ByteCompare {
  import opened DrmTypes

  /**
   * `memcmp(a, b, n)` reduced to its sign: the first of the n leading bytes
   * in which a and b differ decides, compared as unsigned values.
   */
  function Memcmp(a: seq<byte>, b: seq<byte>, n: nat): (r: int)
    requires n <= |a| && n <= |b|
    ensures -1 <= r <= 1
    ensures r == 0 <==> a[..n] == b[..n]
    decreases n
  {
    if n == 0 then 0
    else if a[0] < b[0] then -1
    else if a[0] > b[0] then 1
    else
      assert a[..n] == [a[0]] + a[1..][..n - 1] && b[..n] == [b[0]] + b[1..][..n - 1];
      Memcmp(a[1..], b[1..], n - 1)
  }

  /**
   * a is below b in the first n bytes: up to some position they agree, and
   * there a's byte is the smaller.
   */
  ghost predicate LexBelow(a: seq<byte>, b: seq<byte>, n: nat)
    requires n <= |a| && n <= |b|
  {
    exists i :: 0 <= i < n && a[..i] == b[..i] && a[i] < b[i]
  }

  /** A negative `memcmp` means exactly that the first differing byte of a is the smaller. */
  lemma {:induction false} MemcmpNegative(a: seq<byte>, b: seq<byte>, n: nat)
    requires n <= |a| && n <= |b|
    ensures Memcmp(a, b, n) < 0 <==> LexBelow(a, b, n)
    decreases n
  {
    if n == 0 {
    } else if a[0] < b[0] {
      assert a[..0] == b[..0];
    } else if a[0] > b[0] {
    } else {
      MemcmpNegative(a[1..], b[1..], n - 1);
      LexBelowTail(a, b, n);
    }
  }

  /** Past an equal first byte, being below is decided by the rest. */
  lemma LexBelowTail(a: seq<byte>, b: seq<byte>, n: nat)
    requires 0 < n <= |a| && n <= |b| && a[0] == b[0]
    ensures LexBelow(a, b, n) <==> LexBelow(a[1..], b[1..], n - 1)
  {
    if LexBelow(a, b, n) {
      var i :| 0 <= i < n && a[..i] == b[..i] && a[i] < b[i];
      assert i > 0;
      assert a[1..][..i - 1] == a[..i][1..] == b[..i][1..] == b[1..][..i - 1];
      assert a[1..][i - 1] < b[1..][i - 1];
    }
    if LexBelow(a[1..], b[1..], n - 1) {
      var j :| 0 <= j < n - 1 && a[1..][..j] == b[1..][..j] && a[1..][j] < b[1..][j];
      assert a[..j + 1] == [a[0]] + a[1..][..j] == [b[0]] + b[1..][..j] == b[..j + 1];
      assert a[j + 1] < b[j + 1];
    }
  }

  lemma {:induction false} MemcmpAntisymmetric(a: seq<byte>, b: seq<byte>, n: nat)
    requires n <= |a| && n <= |b|
    ensures Memcmp(b, a, n) == -Memcmp(a, b, n)
    decreases n
  {
    if n > 0 && a[0] == b[0] {
      MemcmpAntisymmetric(a[1..], b[1..], n - 1);
    }
  }

  lemma {:induction false} MemcmpTransitive(a: seq<byte>, b: seq<byte>, c: seq<byte>, n: nat)
    requires n <= |a| && n <= |b| && n <= |c|
    requires Memcmp(a, b, n) < 0 && Memcmp(b, c, n) < 0
    ensures Memcmp(a, c, n) < 0
    decreases n
  {
    if a[0] == b[0] && b[0] == c[0] {
      MemcmpTransitive(a[1..], b[1..], c[1..], n - 1);
    }
  }

  /**
   * The byte-vector `operator<` as written: true when lhs is shorter, and
   * otherwise `memcmp` over |lhs| bytes.  When lhs is longer than rhs that
   * `memcmp` reads past the end of rhs; `beyond` stands for whatever bytes
   * follow rhs in memory.
   */
  function VectorLess(lhs: seq<byte>, rhs: seq<byte>, beyond: seq<byte>): (r: bool)
    requires |lhs| <= |rhs| + |beyond|
    ensures r <==> |lhs| < |rhs| || LexBelow(lhs, rhs + beyond, |lhs|)
  {
    MemcmpNegative(lhs, rhs + beyond, |lhs|);
    |lhs| < |rhs| || Memcmp(lhs, rhs + beyond, |lhs|) < 0
  }

  /**
   * As written, `operator<` is not asymmetric: a longer vector whose leading
   * bytes are smaller is "less" than a shorter one, which in turn is "less"
   * than it by length, whatever bytes follow the shorter one in memory.
   */
  lemma VectorLessNotAsymmetric(beyond: seq<byte>)
    requires |beyond| >= 1
    ensures VectorLess([0, 0], [1], beyond) && VectorLess([1], [0, 0], [])
  {
  }

  /** Shortlex order: shorter first, then `memcmp` on equal lengths. */
  function ShortLexLess(lhs: seq<byte>, rhs: seq<byte>): (r: bool)
    ensures r <==> |lhs| < |rhs| || (|lhs| == |rhs| && LexBelow(lhs, rhs, |lhs|))
  {
    if |lhs| == |rhs| then
      MemcmpNegative(lhs, rhs, |lhs|);
      Memcmp(lhs, rhs, |lhs|) < 0
    else
      |lhs| < |rhs|
  }

  /** Where the source never reads past rhs, it computes exactly the shortlex order. */
  lemma VectorLessIsShortLex(lhs: seq<byte>, rhs: seq<byte>, beyond: seq<byte>)
    requires |lhs| <= |rhs|
    ensures VectorLess(lhs, rhs, beyond) <==> ShortLexLess(lhs, rhs)
  {
    if |lhs| == |rhs| {
      MemcmpPrefixOnly(lhs, rhs, rhs + beyond, |lhs|);
    }
  }

  /** `memcmp` over n bytes looks only at the first n bytes of each side. */
  lemma {:induction false} MemcmpPrefixOnly(a: seq<byte>, b: seq<byte>, b': seq<byte>, n: nat)
    requires n <= |a| && n <= |b| && n <= |b'|
    requires b[..n] == b'[..n]
    ensures Memcmp(a, b, n) == Memcmp(a, b', n)
    decreases n
  {
    if n > 0 {
      assert b[0] == b[..n][0] == b'[..n][0] == b'[0];
      assert b[1..][..n - 1] == b[..n][1..] == b'[..n][1..] == b'[1..][..n - 1];
      MemcmpPrefixOnly(a[1..], b[1..], b'[1..], n - 1);
    }
  }

  lemma ShortLexIrreflexive(v: seq<byte>)
    ensures !ShortLexLess(v, v)
  {
  }

  lemma ShortLexAsymmetric(a: seq<byte>, b: seq<byte>)
    requires ShortLexLess(a, b)
    ensures !ShortLexLess(b, a)
  {
    if |a| == |b| {
      MemcmpAntisymmetric(a, b, |a|);
    }
  }

  lemma ShortLexTransitive(a: seq<byte>, b: seq<byte>, c: seq<byte>)
    requires ShortLexLess(a, b) && ShortLexLess(b, c)
    ensures ShortLexLess(a, c)
  {
    if |a| == |b| == |c| {
      MemcmpTransitive(a, b, c, |a|);
    }
  }

  lemma ShortLexTotal(a: seq<byte>, b: seq<byte>)
    requires a != b
    ensures ShortLexLess(a, b) || ShortLexLess(b, a)
  {
    if |a| == |b| {
      assert a[..|a|] == a && b[..|b|] == b;
      MemcmpAntisymmetric(a, b, |a|);
    }
  }
}
