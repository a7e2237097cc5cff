/** A chain of equally long blocks as one flat byte string. */
module ByteBlocks {
  import Words

  type byte = Words.byte

  /** Where block `k` starts. */
  function Off(base: nat, k: nat): nat { if k == 0 then 0 else Off(base, k - 1) + base }

  function Flatten(blocks: seq<seq<byte>>): seq<byte> {
    if blocks == [] then [] else Flatten(blocks[..|blocks| - 1]) + blocks[|blocks| - 1]
  }

  predicate Uniform(base: nat, blocks: seq<seq<byte>>) { forall i :: 0 <= i < |blocks| ==> |blocks[i]| == base }

  /** `b` written over `s` from offset `p` on. */
  function Splice(s: seq<byte>, p: nat, b: seq<byte>): (r: seq<byte>)
    requires p + |b| <= |s|
    ensures |r| == |s|
  {
    s[..p] + b + s[p + |b|..]
  }

  lemma {:induction false} OffIsProduct(base: nat, k: nat)
    ensures Off(base, k) == k * base
  {
    if k > 0 {
      OffIsProduct(base, k - 1);
      assert k * base == (k - 1) * base + base;
    }
  }

  lemma OffStart(base: nat)
    ensures Off(base, 0) == 0
  {
  }

  lemma OffNext(base: nat, k: nat)
    ensures Off(base, k + 1) == Off(base, k) + base
  {
  }

  lemma {:induction false} OffMonotone(base: nat, i: nat, j: nat)
    requires i <= j
    ensures Off(base, i) <= Off(base, j)
    ensures i < j ==> Off(base, i) + base <= Off(base, j)
    decreases j
  {
    if i < j { OffMonotone(base, i, j - 1); }
  }

  /** An offset before the end belongs to a block before the end. */
  lemma OffReaches(base: nat, i: nat, n: nat)
    ensures Off(base, i) < Off(base, n) ==> i < n
  {
    if i >= n { OffMonotone(base, n, i); }
  }

  lemma {:induction false} FlattenLength(base: nat, blocks: seq<seq<byte>>)
    requires Uniform(base, blocks)
    ensures |Flatten(blocks)| == Off(base, |blocks|)
  {
    if blocks != [] { FlattenLength(base, blocks[..|blocks| - 1]); }
  }

  lemma {:induction false} FlattenAppend(a: seq<seq<byte>>, b: seq<seq<byte>>)
    ensures Flatten(a + b) == Flatten(a) + Flatten(b)
  {
    if b == [] {
      assert a + b == a;
    } else {
      var n := |b| - 1;
      assert (a + b)[..|a + b| - 1] == a + b[..n];
      FlattenAppend(a, b[..n]);
    }
  }

  lemma FlattenPrefix(a: seq<seq<byte>>, b: seq<seq<byte>>)
    requires a <= b
    ensures Flatten(a) <= Flatten(b)
  {
    assert b == a + b[|a|..];
    FlattenAppend(a, b[|a|..]);
  }

  /** A flat string is what is before block k, block k, and what follows. */
  lemma FlattenAt(base: nat, blocks: seq<seq<byte>>, k: nat)
    requires Uniform(base, blocks) && k < |blocks|
    ensures Off(base, k) + base <= |Flatten(blocks)|
    ensures Flatten(blocks)[..Off(base, k)] == Flatten(blocks[..k])
    ensures Flatten(blocks)[Off(base, k)..Off(base, k) + base] == blocks[k]
    ensures Flatten(blocks)[Off(base, k) + base..] == Flatten(blocks[k + 1..])
  {
    assert blocks == blocks[..k] + ([blocks[k]] + blocks[k + 1..]);
    FlattenAppend(blocks[..k], [blocks[k]] + blocks[k + 1..]);
    FlattenAppend([blocks[k]], blocks[k + 1..]);
    FlattenOne(blocks[k]);
    FlattenLength(base, blocks[..k]);
  }

  lemma FlattenOne(b: seq<byte>)
    ensures Flatten([b]) == b
  {
    var one := [b];
    assert one[..0] == [];
    assert Flatten(one) == b;
  }

  lemma SubSlice(s: seq<byte>, i: nat, j: nat, p: nat, n: nat)
    requires i <= j <= |s| && p + n <= j - i
    ensures s[i..j][p..p + n] == s[i + p..i + p + n]
  {
    var a, b := s[i..j][p..p + n], s[i + p..i + p + n];
    forall k | 0 <= k < n ensures a[k] == b[k] {
      assert a[k] == s[i..j][p + k] == s[i + (p + k)];
    }
  }

  /** Reading inside one block. */
  lemma FlattenRead(base: nat, blocks: seq<seq<byte>>, k: nat, p: nat, n: nat)
    requires Uniform(base, blocks) && k < |blocks| && p + n <= base
    ensures Off(base, k) + p + n <= |Flatten(blocks)|
    ensures Flatten(blocks)[Off(base, k) + p..Off(base, k) + p + n] == blocks[k][p..p + n]
  {
    hide Flatten, Off;
    FlattenAt(base, blocks, k);
    var f, o := Flatten(blocks), Off(base, k);
    SubSlice(f, o, o + base, p, n);
  }

  /** Writing inside one block. */
  lemma FlattenWrite(base: nat, blocks: seq<seq<byte>>, k: nat, p: nat, b: seq<byte>)
    requires Uniform(base, blocks) && k < |blocks| && p + |b| <= base
    ensures Off(base, k) + p + |b| <= |Flatten(blocks)|
    ensures Uniform(base, blocks[k := Splice(blocks[k], p, b)])
    ensures Flatten(blocks[k := Splice(blocks[k], p, b)]) == Splice(Flatten(blocks), Off(base, k) + p, b)
  {
    hide Flatten;
    var after := blocks[k := Splice(blocks[k], p, b)];
    FlattenAt(base, blocks, k);
    FlattenAt(base, after, k);
    assert after[..k] == blocks[..k] && after[k + 1..] == blocks[k + 1..];
    var f, g, o := Flatten(blocks), Flatten(after), Off(base, k);
    Thirds(f, o, o + base);
    Thirds(g, o, o + base);
    SpliceInner(f[..o], blocks[k], f[o + base..], p, b);
  }

  lemma Thirds(s: seq<byte>, i: nat, j: nat)
    requires i <= j <= |s|
    ensures s == s[..i] + s[i..j] + s[j..]
  {
  }

  lemma SpliceInner(a: seq<byte>, m: seq<byte>, c: seq<byte>, p: nat, b: seq<byte>)
    requires p + |b| <= |m|
    ensures Splice(a + m + c, |a| + p, b) == a + Splice(m, p, b) + c
  {
  }

  lemma SliceJoin(s: seq<byte>, i: nat, j: nat, k: nat)
    requires i <= j <= k <= |s|
    ensures s[i..j] + s[j..k] == s[i..k]
  {
  }

  lemma SpliceNothing(s: seq<byte>, p: nat)
    requires p <= |s|
    ensures Splice(s, p, []) == s
  {
  }

  /** Two writes side by side are one. */
  lemma SpliceTwice(s: seq<byte>, p: nat, a: seq<byte>, b: seq<byte>)
    requires p + |a| + |b| <= |s|
    ensures Splice(Splice(s, p, a), p + |a|, b) == Splice(s, p, a + b)
  {
  }

  /** `r` is `s`, possibly grown, with `b` written at `p`: nothing else that was there has changed. */
  predicate Wrote(s: seq<byte>, p: nat, b: seq<byte>, r: seq<byte>) {
    && p <= |s| <= |r| && p + |b| <= |r| && r[..p] == s[..p] && r[p..p + |b|] == b
    && (p + |b| <= |s| ==> r[p + |b|..|s|] == s[p + |b|..])
  }

  lemma SpliceWrote(s: seq<byte>, g: seq<byte>, p: nat, b: seq<byte>)
    requires s <= g && p <= |s| && p + |b| <= |g|
    ensures Wrote(s, p, b, Splice(g, p, b))
  {
    var r := Splice(g, p, b);
    assert r[..p] == g[..p] == s[..p];
    assert r[p..p + |b|] == b;
    if p + |b| <= |s| { assert r[p + |b|..|s|] == g[p + |b|..|s|] == s[p + |b|..]; }
  }

  /** A position inside block k has quotient k and remainder its distance from the block's start. */
  lemma OffDivides(base: nat, k: nat, p: nat)
    requires base >= 1 && Off(base, k) <= p < Off(base, k) + base
    ensures p / base == k && p % base == p - Off(base, k)
  {
    OffIsProduct(base, k);
    QuotientUnique(base, k, p);
  }

  lemma QuotientUnique(base: nat, k: nat, p: nat)
    requires base >= 1 && k * base <= p < k * base + base
    ensures p / base == k && p % base == p - k * base
  {
    var q := p / base;
    assert p == q * base + p % base;
    assert (q - k) * base == q * base - k * base;
    Multiple(q - k, base);
  }

  lemma Multiple(d: int, base: nat)
    requires 0 - base < d * base < base
    ensures d == 0
  {
  }

  /** Rounding up covers the need, by less than one block too much. */
  lemma CeilCovers(base: nat, k: nat, need: nat)
    requires base >= 1 && need >= 1
    ensures var count := Ceil(need, base);
      count >= 1 && Off(base, k) + need <= Off(base, k + count) < Off(base, k) + need + base
  {
    var count := Ceil(need, base);
    OffIsProduct(base, k);
    OffIsProduct(base, k + count);
    CeilBounds(base, need);
    assert (k + count) * base == k * base + count * base;
  }

  function Ceil(need: nat, base: nat): nat
    requires base >= 1
  {
    need / base + if need % base != 0 then 1 else 0
  }

  lemma CeilBounds(base: nat, need: nat)
    requires base >= 1
    ensures need <= Ceil(need, base) * base < need + base && (need >= 1 ==> Ceil(need, base) >= 1)
  {
    var q := need / base;
    assert need == q * base + need % base;
    assert (q + 1) * base == q * base + base;
  }
}
