/**
 The RFC 6962 Merkle tree over record hashes (internal/audit/merkle.go): the
 power-of-two split, roots, proofs, and their memoised generators.
 */
module Merkle {
  import opened Hashing

  // ---------------------------------------------------------------- powers of two

  predicate IsPow2(n: nat) {
    n == 1 || (n > 0 && n % 2 == 0 && IsPow2(n / 2))
  }

  function Times(d: nat, q: nat): nat {
    d * q
  }

  ghost predicate Divides(d: nat, k: nat) {
    exists q: nat :: Times(d, q) == k
  }

  /** Powers of two, by their divisors. */
  ghost predicate OnlyEvenDivisors(k: nat) {
    k > 0 && forall d: nat :: Divides(d, k) ==> d == 1 || d % 2 == 0
  }

  lemma {:induction false} Pow2ByDivisors(k: nat)
    requires OnlyEvenDivisors(k)
    ensures IsPow2(k)
  {
    if k > 1 {
      assert Times(k, 1) == k && Divides(k, k);
      var h := k / 2;
      forall d: nat | Divides(d, h) ensures d == 1 || d % 2 == 0 {
        var q: nat :| Times(d, q) == h;
        assert Times(d, 2 * q) == 2 * Times(d, q) == k;
        assert Divides(d, k);
      }
      Pow2ByDivisors(h);
    }
  }

  lemma {:induction false} DivisorsOfPow2(k: nat)
    requires IsPow2(k)
    ensures OnlyEvenDivisors(k)
  {
    forall d: nat | Divides(d, k) ensures d == 1 || d % 2 == 0 {
      var q: nat :| Times(d, q) == k;
      if k == 1 {
        assert d <= Times(d, q);
      } else if d % 2 == 1 {
        OddFactor(d, q);
        assert Times(d, q / 2) == k / 2 && Divides(d, k / 2);
        DivisorsOfPow2(k / 2);
      }
    }
  }

  lemma OddFactor(d: nat, q: nat)
    requires d % 2 == 1 && Times(d, q) % 2 == 0
    ensures 2 * Times(d, q / 2) == Times(d, q)
  {
    var a, b := d / 2, q / 2;
    assert Times(d, q) == 2 * Times(d, b) + (q % 2) * d;
    assert (q % 2) * d == (q % 2) + 2 * ((q % 2) * a);
  }

  ghost predicate SplitsAt(n: nat, k: nat) {
    0 < k < n <= 2 * k && OnlyEvenDivisors(k)
  }

  lemma {:induction false} SplitExists(n: nat)
    requires n >= 2
    ensures exists k: nat :: SplitsAt(n, k)
  {
    if n == 2 {
      DivisorsOfPow2(1);
      assert SplitsAt(2, 1);
    } else {
      var h := (n + 1) / 2;
      SplitExists(h);
      var j: nat :| SplitsAt(h, j);
      var k := 2 * j;
      Pow2ByDivisors(j);
      assert k / 2 == j && IsPow2(k);
      DivisorsOfPow2(k);
      assert SplitsAt(n, k);
    }
  }

  /** The point where a tree of n leaves is split: the largest power of two below n. */
  ghost function Split(n: nat): (k: nat)
    requires n >= 2
    ensures 0 < k < n <= 2 * k
  {
    SplitExists(n);
    var k: nat :| SplitsAt(n, k);
    k
  }

  lemma {:induction false} Pow2Gap(j: nat, k: nat)
    requires IsPow2(j) && IsPow2(k) && j < k
    ensures 2 * j <= k
  {
    if j > 1 {
      Pow2Gap(j / 2, k / 2);
    }
  }

  lemma SplitUnique(n: nat, k: nat)
    requires n >= 2 && IsPow2(k) && k < n <= 2 * k
    ensures k == Split(n)
  {
    SplitIsPow2(n);
    if k < Split(n) {
      Pow2Gap(k, Split(n));
    } else if Split(n) < k {
      Pow2Gap(Split(n), k);
    }
  }

  lemma SplitIsPow2(n: nat)
    requires n >= 2
    ensures IsPow2(Split(n))
  {
    SplitExists(n);
    Pow2ByDivisors(Split(n));
  }

  /** Halving a size halves its split point. */
  lemma SplitHalving(n: nat)
    requires n >= 3
    ensures Split(n) == 2 * Split((n + 1) / 2)
  {
    var h := (n + 1) / 2;
    var j := Split(h);
    SplitIsPow2(h);
    assert (2 * j) / 2 == j && IsPow2(2 * j);
    SplitUnique(n, 2 * j);
  }

  method LargestPow2Below(n: int) returns (k: nat)
    ensures n >= 2 ==> k == Split(n)
    ensures n < 2 ==> k == 1
  {
    k := 1;
    while k * 2 < n
      invariant IsPow2(k)
      invariant k < n || k == 1
      decreases n - k
    {
      k := k * 2;
    }
    if n >= 2 {
      SplitUnique(n, k);
    }
  }

  /** Bitwise AND of two naturals. */
  function BitAnd(a: nat, b: nat): nat {
    if a == 0 then 0 else (if a % 2 == 1 && b % 2 == 1 then 1 else 0) + 2 * BitAnd(a / 2, b / 2)
  }

  lemma {:induction false} BitAndSelf(a: nat)
    ensures BitAnd(a, a) == a
  {
    if a > 0 {
      BitAndSelf(a / 2);
    }
  }

  /** Clearing the lowest set bit of n leaves nothing exactly for a power of two. */
  lemma {:induction false} Pow2ByBits(n: nat)
    requires n > 0
    ensures BitAnd(n, n - 1) == 0 <==> IsPow2(n)
  {
    if n % 2 == 0 {
      assert (n - 1) / 2 == n / 2 - 1;
      Pow2ByBits(n / 2);
    } else if n > 1 {
      BitAndSelf(n / 2);
    }
  }

  method CheckPow2(n: int) returns (b: bool)
    ensures b <==> n > 0 && IsPow2(n)
  {
    if n > 0 {
      Pow2ByBits(n);
    }
    b := n > 0 && BitAnd(n, n - 1) == 0;
  }

  // ---------------------------------------------------------------- trees and proofs

  /** The root of the tree over leaves[off..off + n]. */
  ghost function RangeRoot(sha: Sha, leaves: seq<Bytes>, off: nat, n: nat): Bytes
    requires off + n <= |leaves|
    decreases n
  {
    if n == 0 then sha.Digest([])
    else if n == 1 then LeafHash(sha, leaves[off])
    else
      var k := Split(n);
      NodeHash(sha, RangeRoot(sha, leaves, off, k), RangeRoot(sha, leaves, off + k, n - k))
  }

  lemma RootLength(sha: Sha, leaves: seq<Bytes>, off: nat, n: nat)
    requires off + n <= |leaves| && Digests32(sha)
    ensures |RangeRoot(sha, leaves, off, n)| == 32
  {
  }

  ghost function Root(sha: Sha, leaves: seq<Bytes>): Bytes {
    RangeRoot(sha, leaves, 0, |leaves|)
  }

  /** `inputs` holds every byte string hashed while computing the range's root. */
  ghost predicate CoversTree(inputs: set<Bytes>, sha: Sha, leaves: seq<Bytes>, off: nat, n: nat)
    requires off + n <= |leaves|
    decreases n
  {
    if n == 0 then [] in inputs
    else if n == 1 then LeafInput(leaves[off]) in inputs
    else
      var k := Split(n);
      && NodeInput(RangeRoot(sha, leaves, off, k), RangeRoot(sha, leaves, off + k, n - k)) in inputs
      && CoversTree(inputs, sha, leaves, off, k)
      && CoversTree(inputs, sha, leaves, off + k, n - k)
  }

  /** The audit path of leaf off + m, from its sibling up to the root's child. */
  ghost function RangePath(sha: Sha, leaves: seq<Bytes>, m: nat, off: nat, n: nat): seq<Bytes>
    requires off + n <= |leaves| && m < n
    decreases n
  {
    if n == 1 then []
    else
      var k := Split(n);
      if m < k then RangePath(sha, leaves, m, off, k) + [RangeRoot(sha, leaves, off + k, n - k)]
      else RangePath(sha, leaves, m - k, off + k, n - k) + [RangeRoot(sha, leaves, off, k)]
  }

  lemma RangePathLeft(sha: Sha, leaves: seq<Bytes>, m: nat, off: nat, n: nat, k: nat, off': nat, n': nat)
    requires off + n <= |leaves| && n >= 2 && k == Split(n) && m < k && off' == off + k && n' == n - k
    ensures RangePath(sha, leaves, m, off, n) == RangePath(sha, leaves, m, off, k) + [RangeRoot(sha, leaves, off', n')]
  {
  }

  lemma RangePathRight(sha: Sha, leaves: seq<Bytes>, m: nat, off: nat, n: nat, k: nat, m': nat, off': nat, n': nat)
    requires off + n <= |leaves| && n >= 2 && k == Split(n) && k <= m < n
    requires m' == m - k && off' == off + k && n' == n - k
    ensures RangePath(sha, leaves, m, off, n) == RangePath(sha, leaves, m', off', n') + [RangeRoot(sha, leaves, off, k)]
  {
  }

  ghost function InclusionPath(sha: Sha, leaves: seq<Bytes>, m: nat): seq<Bytes>
    requires m < |leaves|
  {
    RangePath(sha, leaves, m, 0, |leaves|)
  }

  /** SUBPROOF of section 2.1.2 of RFC 6962; `known` says the verifier already has the subtree's root. */
  ghost function RangeSubPath(sha: Sha, leaves: seq<Bytes>, m: nat, off: nat, n: nat, known: bool): seq<Bytes>
    requires off + n <= |leaves| && 0 < m <= n
    decreases n
  {
    if m == n then
      if known then [] else [RangeRoot(sha, leaves, off, n)]
    else
      var k := Split(n);
      if m <= k then RangeSubPath(sha, leaves, m, off, k, known) + [RangeRoot(sha, leaves, off + k, n - k)]
      else RangeSubPath(sha, leaves, m - k, off + k, n - k, false) + [RangeRoot(sha, leaves, off, k)]
  }

  ghost function ConsistencyPath(sha: Sha, leaves: seq<Bytes>, m: nat): seq<Bytes>
    requires 0 < m <= |leaves|
  {
    RangeSubPath(sha, leaves, m, 0, |leaves|, true)
  }

  /** A range's root depends on nothing but the leaves in the range. */
  lemma {:induction false} RangeCongruence(sha: Sha, a: seq<Bytes>, b: seq<Bytes>, off: nat, n: nat)
    requires off + n <= |a| && off + n <= |b|
    requires forall i :: off <= i < off + n ==> a[i] == b[i]
    ensures RangeRoot(sha, a, off, n) == RangeRoot(sha, b, off, n)
    decreases n
  {
    if n >= 2 {
      var k := Split(n);
      RangeCongruence(sha, a, b, off, k);
      RangeCongruence(sha, a, b, off + k, n - k);
      var left, right := RangeRoot(sha, a, off, k), RangeRoot(sha, a, off + k, n - k);
      assert RangeRoot(sha, a, off, n) == NodeHash(sha, left, right) == RangeRoot(sha, b, off, n);
    }
  }

  lemma PrefixRoot(sha: Sha, leaves: seq<Bytes>, m: nat)
    requires m <= |leaves|
    ensures Root(sha, leaves[..m]) == RangeRoot(sha, leaves, 0, m)
  {
    RangeCongruence(sha, leaves[..m], leaves, 0, m);
  }

  /** Trees of one size with one root have the same leaves. */
  lemma {:induction false} RootInjective(sha: Sha, inputs: set<Bytes>, a: seq<Bytes>, b: seq<Bytes>, off: nat, n: nat)
    requires off + n <= |a| && off + n <= |b|
    requires CollisionFree(sha, inputs)
    requires CoversTree(inputs, sha, a, off, n) && CoversTree(inputs, sha, b, off, n)
    requires RangeRoot(sha, a, off, n) == RangeRoot(sha, b, off, n)
    ensures forall i :: off <= i < off + n ==> a[i] == b[i]
    decreases n
  {
    if n == 1 {
      LeafHashInjective(sha, inputs, a[off], b[off]);
    } else if n >= 2 {
      var k := Split(n);
      NodeHashInjective(sha, inputs,
        RangeRoot(sha, a, off, k), RangeRoot(sha, a, off + k, n - k),
        RangeRoot(sha, b, off, k), RangeRoot(sha, b, off + k, n - k));
      RootInjective(sha, inputs, a, b, off, k);
      RootInjective(sha, inputs, a, b, off + k, n - k);
    }
  }

  // ---------------------------------------------------------------- memoised generators

  /** The subtree roots shared by the recursive calls of one proof, keyed by (offset, size). */
  class Memo {
    var cache: map<(nat, nat), Bytes>

    constructor ()
      ensures cache == map[]
    {
      cache := map[];
    }

    /** Nothing in the memo differs from the memo-free recursion. */
    ghost predicate Valid(sha: Sha, leaves: seq<Bytes>)
      reads this
    {
      forall off, n :: (off, n) in cache ==>
        off + n <= |leaves| && cache[(off, n)] == RangeRoot(sha, leaves, off, n)
    }
  }

  method MRoot(sha: Sha, leaves: seq<Bytes>, off: nat, n: nat, memo: Memo?) returns (h: Bytes)
    requires off + n <= |leaves|
    requires memo != null ==> memo.Valid(sha, leaves)
    modifies if memo == null then {} else {memo}
    ensures h == RangeRoot(sha, leaves, off, n)
    ensures memo != null ==> memo.Valid(sha, leaves)
    decreases n
  {
    if n == 0 {
      return sha.Digest([]);
    }
    if n == 1 {
      return LeafHash(sha, leaves[off]);
    }
    if memo != null && (off, n) in memo.cache {
      return memo.cache[(off, n)];
    }
    var k := LargestPow2Below(n);
    var left := MRoot(sha, leaves, off, k, memo);
    var right := MRoot(sha, leaves, off + k, n - k, memo);
    h := NodeHash(sha, left, right);
    if memo != null {
      memo.cache := memo.cache[(off, n) := h];
    }
  }

  method MerkleRoot(sha: Sha, leaves: seq<Bytes>) returns (h: Bytes)
    ensures h == Root(sha, leaves)
  {
    h := MRoot(sha, leaves, 0, |leaves|, null);
  }

  method IProof(sha: Sha, leaves: seq<Bytes>, m: nat, off: nat, n: nat, memo: Memo) returns (proof: seq<Bytes>)
    requires off + n <= |leaves| && m < n
    requires memo.Valid(sha, leaves)
    modifies memo
    ensures memo.Valid(sha, leaves)
    ensures proof == RangePath(sha, leaves, m, off, n)
    decreases n
  {
    if n <= 1 {
      return [];
    }
    var k := LargestPow2Below(n);
    var off', n' := off + k, n - k;
    if m < k {
      proof := IProof(sha, leaves, m, off, k, memo);
      var sibling := MRoot(sha, leaves, off', n', memo);
      proof := proof + [sibling];
      RangePathLeft(sha, leaves, m, off, n, k, off', n');
    } else {
      var m' := m - k;
      proof := IProof(sha, leaves, m', off', n', memo);
      var sibling := MRoot(sha, leaves, off, k, memo);
      proof := proof + [sibling];
      RangePathRight(sha, leaves, m, off, n, k, m', off', n');
    }
  }

  /** The path made through the shared memo is the memo-free one; an index out of range has none. */
  method InclusionProof(sha: Sha, leaves: seq<Bytes>, m: int) returns (proof: seq<Bytes>)
    ensures 0 <= m < |leaves| ==> proof == InclusionPath(sha, leaves, m)
    ensures !(0 <= m < |leaves|) ==> proof == []
  {
    if m < 0 || m >= |leaves| {
      return [];
    }
    var memo := new Memo();
    proof := IProof(sha, leaves, m, 0, |leaves|, memo);
  }

  method SubProof(sha: Sha, leaves: seq<Bytes>, m: nat, off: nat, n: nat, b: bool, memo: Memo)
    returns (proof: seq<Bytes>)
    requires off + n <= |leaves| && 0 < m <= n
    requires memo.Valid(sha, leaves)
    modifies memo
    ensures memo.Valid(sha, leaves)
    ensures proof == RangeSubPath(sha, leaves, m, off, n, b)
    decreases n
  {
    if m == n {
      if b {
        return [];
      }
      var whole := MRoot(sha, leaves, off, n, memo);
      return [whole];
    }
    var k := LargestPow2Below(n);
    var off', n' := off + k, n - k;
    if m <= k {
      var below := SubProof(sha, leaves, m, off, k, b, memo);
      var sibling := MRoot(sha, leaves, off', n', memo);
      proof := below + [sibling];
    } else {
      var below := SubProof(sha, leaves, m - k, off', n', false, memo);
      var sibling := MRoot(sha, leaves, off, k, memo);
      proof := below + [sibling];
    }
  }

  method ConsistencyProof(sha: Sha, leaves: seq<Bytes>, m: int) returns (proof: seq<Bytes>)
    ensures 0 < m < |leaves| ==> proof == ConsistencyPath(sha, leaves, m)
    ensures !(0 < m < |leaves|) ==> proof == []
  {
    if m <= 0 || m >= |leaves| {
      return [];
    }
    var memo := new Memo();
    proof := SubProof(sha, leaves, m, 0, |leaves|, true, memo);
  }
}
