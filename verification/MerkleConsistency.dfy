/**
 Consistency proofs: `verifyConsistency` of internal/audit/merkle.go, proved to
 accept, between two real roots, exactly the generated proof of a prefix.
 */
module MerkleConsistency {
  import opened Hashing
  import opened Merkle
  import opened MerkleVerify

  // ---------------------------------------------------------------- routes

  /** The turns from the largest complete subtree that ends at leaf m - 1 up to the root. */
  ghost function PrefixRoute(m: nat, n: nat): seq<Turn>
    requires 0 < m <= n
    decreases n
  {
    if m == n then []
    else
      var k := Split(n);
      if m <= k then PrefixRoute(m, k) + [Left] else PrefixRoute(m - k, n - k) + [Right]
  }

  lemma PrefixRouteLeft(m: nat, n: nat, k: nat)
    requires n >= 2 && k == Split(n) && 0 < m <= k
    ensures PrefixRoute(m, n) == PrefixRoute(m, k) + [Left]
  {
  }

  lemma PrefixRouteRight(m: nat, n: nat, a: nat, b: nat)
    requires n >= 2 && Split(n) < m < n && a == m - Split(n) && b == n - Split(n)
    ensures PrefixRoute(m, n) == PrefixRoute(a, b) + [Right]
  {
  }

  /** After an odd number of leaves the subtree is the last leaf itself. */
  lemma {:induction false} PrefixRouteOdd(m: nat, n: nat)
    requires 0 < m < n && m % 2 == 1
    ensures PrefixRoute(m, n) == Route(m - 1, n)
    decreases n
  {
    if n > 2 {
      SplitHalving(n);
      var k, l := Split(n), m - 1;
      if m < k {
        PrefixRouteOdd(m, k);
        PrefixRouteLeft(m, n, k);
        RouteLeft(l, n, k);
      } else {
        var a, b := m - k, n - k;
        PrefixRouteOdd(a, b);
        PrefixRouteRight(m, n, a, b);
        RouteRight(l, n, a - 1, b);
      }
    }
  }

  /** After an even number of leaves, halving both sizes changes no turn. */
  lemma {:induction false} PrefixRouteEven(m: nat, n: nat)
    requires 0 < m < n && m % 2 == 0
    ensures m / 2 < (n + 1) / 2
    ensures PrefixRoute(m, n) == PrefixRoute(m / 2, (n + 1) / 2)
    decreases n
  {
    SplitHalving(n);
    var k, h, m' := Split(n), (n + 1) / 2, m / 2;
    var j := Split(h);
    if m <= k {
      if m < k {
        PrefixRouteEven(m, k);
        assert (k + 1) / 2 == j;
      }
      PrefixRouteLeft(m, n, k);
      PrefixRouteLeft(m', h, j);
    } else {
      var a, b, a', b' := m - k, n - k, m' - j, h - j;
      PrefixRouteEven(a, b);
      assert a / 2 == a' && (b + 1) / 2 == b';
      PrefixRouteRight(m, n, a, b);
      PrefixRouteRight(m', h, a', b');
    }
  }

  /** Whether the recursion of the generator reaches its end without a right turn. */
  ghost predicate SeedKnown(m: nat, n: nat)
    requires 0 < m <= n
    decreases n
  {
    m == n || (m <= Split(n) && SeedKnown(m, Split(n)))
  }

  /** The old root is left out of the proof exactly when the old size is a power of two. */
  lemma {:induction false} SeedKnownIsPow2(m: nat, n: nat)
    requires 0 < m < n
    ensures SeedKnown(m, n) <==> IsPow2(m)
    decreases n
  {
    var k := Split(n);
    SplitIsPow2(n);
    if m < k {
      SeedKnownIsPow2(m, k);
    } else if m > k && IsPow2(m) {
      Pow2Gap(k, m);
    }
  }

  // ---------------------------------------------------------------- the verifier

  /** The old root rebuilt from the seed: only left siblings join it. */
  ghost function FoldOld(sha: Sha, seed: Bytes, route: seq<Turn>, siblings: seq<Bytes>, i: nat): Bytes
    requires i <= |siblings|
  {
    if i == 0 then seed
    else
      var below := FoldOld(sha, seed, route, siblings, i - 1);
      if TurnAt(route, i - 1) == Right then NodeHash(sha, siblings[i - 1], below) else below
  }

  /** From the seed, the siblings lead to both roots. */
  ghost predicate Rebuilds(sha: Sha, m: nat, n: nat, seed: Bytes, siblings: seq<Bytes>, oldRoot: Bytes, newRoot: Bytes)
    requires 0 < m <= n
  {
    && |siblings| == |PrefixRoute(m, n)|
    && FoldOld(sha, seed, PrefixRoute(m, n), siblings, |siblings|) == oldRoot
    && Fold(sha, seed, PrefixRoute(m, n), siblings, |siblings|) == newRoot
  }

  /** The walked hashes: a power-of-two old tree is itself the seed and is not sent. */
  function Walked(m: nat, proof: seq<Bytes>, oldRoot: Bytes): seq<Bytes> {
    if IsPow2(m) then [oldRoot] + proof else proof
  }

  /** What acceptance by `VerifyConsistency` amounts to, over the top-down route. */
  ghost predicate ConsistencyAccepted(sha: Sha, m: int, n: int, proof: seq<Bytes>, oldRoot: Bytes, newRoot: Bytes) {
    && 0 < m <= n
    && (m == n ==> proof == [] && oldRoot == newRoot)
    && (m < n ==> WalkAccepted(sha, m, n, Walked(m, proof, oldRoot), oldRoot, newRoot))
  }

  ghost predicate WalkAccepted(sha: Sha, m: nat, n: nat, pr: seq<Bytes>, oldRoot: Bytes, newRoot: Bytes)
    requires 0 < m < n
  {
    |pr| > 0 && Rebuilds(sha, m, n, pr[0], pr[1..], oldRoot, newRoot)
  }

  /** The verifier's first loop: skip to the largest complete subtree that ends the old tree. */
  method StripOnes(m: nat, n: nat) returns (fn: nat, sn: nat)
    requires 0 < m < n
    ensures fn <= sn && Climb(fn, sn) == PrefixRoute(m, n)
  {
    fn, sn := m - 1, n - 1;
    ghost var route, m', n' := PrefixRoute(m, n), m, n;
    while fn % 2 == 1
      invariant fn < sn && m' == fn + 1 && n' == sn + 1
      invariant PrefixRoute(m', n') == route
      decreases fn
    {
      PrefixRouteEven(m', n');
      fn, sn := fn / 2, sn / 2;
      m', n' := m' / 2, (n' + 1) / 2;
    }
    PrefixRouteOdd(m', n');
    RouteIsClimb(fn, n');
  }

  /** The verifier's main loop; too many siblings are refused on the way, too few leave sn above 0. */
  method FoldRoots(sha: Sha, seed: Bytes, siblings: seq<Bytes>, fn0: nat, sn0: nat)
    returns (complete: bool, fr: Bytes, sr: Bytes)
    requires fn0 <= sn0
    ensures complete <==> |siblings| == |Climb(fn0, sn0)|
    ensures complete ==> fr == FoldOld(sha, seed, Climb(fn0, sn0), siblings, |siblings|)
    ensures complete ==> sr == Fold(sha, seed, Climb(fn0, sn0), siblings, |siblings|)
  {
    ghost var route := Climb(fn0, sn0);
    var fn, sn := fn0, sn0;
    fr, sr := seed, seed;
    for i := 0 to |siblings|
      invariant fn <= sn && i <= |route| && Climb(fn, sn) == Ahead(route, i)
      invariant fr == FoldOld(sha, seed, route, siblings, i)
      invariant sr == Fold(sha, seed, route, siblings, i)
    {
      if sn == 0 {
        return false, fr, sr;
      }
      var c, right := siblings[i], IsRightTurn(fn, sn);
      if right {
        fr := NodeHash(sha, c, fr);
        sr := NodeHash(sha, c, sr);
      } else {
        sr := NodeHash(sha, sr, c);
      }
      ghost var fn', sn' := fn, sn;
      fn, sn := Rise(fn, sn);
      InStep(route, i, fn', sn', Climb(fn, sn));
    }
    ClimbEmpty(fn, sn);
    complete := sn == 0;
  }

  method VerifyConsistency(sha: Sha, m: int, n: int, proof: seq<Bytes>, oldRoot: Bytes, newRoot: Bytes)
    returns (ok: bool)
    ensures ok <==> ConsistencyAccepted(sha, m, n, proof, oldRoot, newRoot)
  {
    if m <= 0 || m > n {
      return false;
    }
    if m == n {
      return |proof| == 0 && oldRoot == newRoot;
    }
    var pr := proof;
    var pow2 := CheckPow2(m);
    if pow2 {
      pr := [oldRoot] + pr;
    }
    if |pr| == 0 {
      return false;
    }
    var fn, sn := StripOnes(m, n);
    var complete, fr, sr := FoldRoots(sha, pr[0], pr[1..], fn, sn);
    ok := complete && fr == oldRoot && sr == newRoot;
  }

  // ---------------------------------------------------------------- completeness

  /** The root of the subtree where the generator's recursion ends. */
  ghost function PrefixSeed(sha: Sha, leaves: seq<Bytes>, m: nat, off: nat, n: nat): Bytes
    requires off + n <= |leaves| && 0 < m <= n
    decreases n
  {
    if m == n then RangeRoot(sha, leaves, off, n)
    else
      var k := Split(n);
      if m <= k then PrefixSeed(sha, leaves, m, off, k) else PrefixSeed(sha, leaves, m - k, off + k, n - k)
  }

  ghost function PrefixSiblings(sha: Sha, leaves: seq<Bytes>, m: nat, off: nat, n: nat): seq<Bytes>
    requires off + n <= |leaves| && 0 < m <= n
    decreases n
  {
    if m == n then []
    else
      var k := Split(n);
      if m <= k then PrefixSiblings(sha, leaves, m, off, k) + [RangeRoot(sha, leaves, off + k, n - k)]
      else PrefixSiblings(sha, leaves, m - k, off + k, n - k) + [RangeRoot(sha, leaves, off, k)]
  }

  lemma SeedLeft(sha: Sha, leaves: seq<Bytes>, m: nat, off: nat, n: nat, k: nat)
    requires off + n <= |leaves| && n >= 2 && 0 < m <= k == Split(n)
    ensures PrefixSeed(sha, leaves, m, off, n) == PrefixSeed(sha, leaves, m, off, k)
  {
  }

  lemma SeedRight(sha: Sha, leaves: seq<Bytes>, m: nat, off: nat, n: nat, k: nat, m': nat, off': nat, n': nat)
    requires off + n <= |leaves| && n >= 2 && k < m < n && k == Split(n)
    requires m' == m - k && off' == off + k && n' == n - k
    ensures PrefixSeed(sha, leaves, m, off, n) == PrefixSeed(sha, leaves, m', off', n')
  {
  }

  lemma SiblingsLeft(sha: Sha, leaves: seq<Bytes>, m: nat, off: nat, n: nat, k: nat, off': nat, n': nat)
    requires off + n <= |leaves| && n >= 2 && 0 < m <= k == Split(n) && off' == off + k && n' == n - k
    ensures PrefixSiblings(sha, leaves, m, off, n)
      == PrefixSiblings(sha, leaves, m, off, k) + [RangeRoot(sha, leaves, off', n')]
  {
  }

  lemma SiblingsRight(sha: Sha, leaves: seq<Bytes>, m: nat, off: nat, n: nat, k: nat, m': nat, off': nat, n': nat)
    requires off + n <= |leaves| && n >= 2 && k < m < n && k == Split(n)
    requires m' == m - k && off' == off + k && n' == n - k
    ensures PrefixSiblings(sha, leaves, m, off, n)
      == PrefixSiblings(sha, leaves, m', off', n') + [RangeRoot(sha, leaves, off, k)]
  {
  }

  ghost function ShapedPath(sha: Sha, leaves: seq<Bytes>, m: nat, off: nat, n: nat, known: bool): seq<Bytes>
    requires off + n <= |leaves| && 0 < m <= n
  {
    (if known && SeedKnown(m, n) then [] else [PrefixSeed(sha, leaves, m, off, n)])
      + PrefixSiblings(sha, leaves, m, off, n)
  }

  /** A generated proof is its seed, unless the verifier knows it, and its siblings. */
  lemma {:induction false} SubPathShape(sha: Sha, leaves: seq<Bytes>, m: nat, off: nat, n: nat, known: bool)
    requires off + n <= |leaves| && 0 < m <= n
    ensures RangeSubPath(sha, leaves, m, off, n, known) == ShapedPath(sha, leaves, m, off, n, known)
    decreases n
  {
    if m < n {
      var k := Split(n);
      var off', n' := off + k, n - k;
      if m <= k {
        SubPathShape(sha, leaves, m, off, k, known);
        ShapeLeft(sha, leaves, m, off, n, known, k, off', n');
      } else {
        var m' := m - k;
        SubPathShape(sha, leaves, m', off', n', false);
        ShapeRight(sha, leaves, m, off, n, known, k, m', off', n');
      }
    }
  }

  lemma ShapeLeft(sha: Sha, leaves: seq<Bytes>, m: nat, off: nat, n: nat, known: bool, k: nat, off': nat, n': nat)
    requires off + n <= |leaves| && n >= 2 && k == Split(n) && off' == off + k && n' == n - k && 0 < m <= k
    ensures RangeSubPath(sha, leaves, m, off, n, known)
      == RangeSubPath(sha, leaves, m, off, k, known) + [RangeRoot(sha, leaves, off', n')]
    ensures ShapedPath(sha, leaves, m, off, n, known)
      == ShapedPath(sha, leaves, m, off, k, known) + [RangeRoot(sha, leaves, off', n')]
  {
    SubPathLeft(sha, leaves, m, off, n, known, k, off', n');
    SeedLeft(sha, leaves, m, off, n, k);
    SiblingsLeft(sha, leaves, m, off, n, k, off', n');
  }

  lemma SubPathLeft(sha: Sha, leaves: seq<Bytes>, m: nat, off: nat, n: nat, known: bool, k: nat, off': nat, n': nat)
    requires off + n <= |leaves| && n >= 2 && k == Split(n) && off' == off + k && n' == n - k && 0 < m <= k
    ensures RangeSubPath(sha, leaves, m, off, n, known)
      == RangeSubPath(sha, leaves, m, off, k, known) + [RangeRoot(sha, leaves, off', n')]
  {
  }

  lemma SubPathRight(sha: Sha, leaves: seq<Bytes>, m: nat, off: nat, n: nat, known: bool,
                     k: nat, m': nat, off': nat, n': nat)
    requires off + n <= |leaves| && n >= 2 && k == Split(n) && off' == off + k
    requires n' == n - k && k < m < n && m' == m - k
    ensures RangeSubPath(sha, leaves, m, off, n, known)
      == RangeSubPath(sha, leaves, m', off', n', false) + [RangeRoot(sha, leaves, off, k)]
  {
  }

  lemma ShapeRight(sha: Sha, leaves: seq<Bytes>, m: nat, off: nat, n: nat, known: bool,
                   k: nat, m': nat, off': nat, n': nat)
    requires off + n <= |leaves| && n >= 2 && k == Split(n) && off' == off + k
    requires n' == n - k && k < m < n && m' == m - k
    ensures RangeSubPath(sha, leaves, m, off, n, known)
      == RangeSubPath(sha, leaves, m', off', n', false) + [RangeRoot(sha, leaves, off, k)]
    ensures ShapedPath(sha, leaves, m, off, n, known)
      == ShapedPath(sha, leaves, m', off', n', false) + [RangeRoot(sha, leaves, off, k)]
  {
    SubPathRight(sha, leaves, m, off, n, known, k, m', off', n');
    SeedRight(sha, leaves, m, off, n, k, m', off', n');
    SiblingsRight(sha, leaves, m, off, n, k, m', off', n');
  }

  lemma {:induction false} FoldOldCongruence(
    sha: Sha, seed: Bytes, r: seq<Turn>, r': seq<Turn>, p: seq<Bytes>, p': seq<Bytes>, i: nat)
    requires i <= |p| && i <= |p'|
    requires forall j :: 0 <= j < i ==> TurnAt(r, j) == TurnAt(r', j) && p[j] == p'[j]
    ensures FoldOld(sha, seed, r, p, i) == FoldOld(sha, seed, r', p', i)
  {
    if i > 0 {
      FoldOldCongruence(sha, seed, r, r', p, p', i - 1);
    }
  }

  lemma FoldBothSnoc(sha: Sha, seed: Bytes, route: seq<Turn>, siblings: seq<Bytes>, turn: Turn, sibling: Bytes)
    requires |route| == |siblings|
    ensures Fold(sha, seed, route + [turn], siblings + [sibling], |siblings| + 1)
      == Join(sha, turn, Fold(sha, seed, route, siblings, |siblings|), sibling)
    ensures var old' := FoldOld(sha, seed, route, siblings, |siblings|);
      FoldOld(sha, seed, route + [turn], siblings + [sibling], |siblings| + 1)
      == if turn == Right then NodeHash(sha, sibling, old') else old'
  {
    FoldSnoc(sha, seed, route, siblings, turn, sibling);
    FoldOldCongruence(sha, seed, route, route + [turn], siblings, siblings + [sibling], |siblings|);
  }

  /** From the generated seed, the generated siblings lead to both real roots. */
  ghost predicate PrefixFolds(sha: Sha, leaves: seq<Bytes>, m: nat, off: nat, n: nat)
    requires off + n <= |leaves| && 0 < m <= n
  {
    Rebuilds(sha, m, n, PrefixSeed(sha, leaves, m, off, n), PrefixSiblings(sha, leaves, m, off, n),
      RangeRoot(sha, leaves, off, m), RangeRoot(sha, leaves, off, n))
  }

  lemma {:induction false} PrefixFoldsToRoots(sha: Sha, leaves: seq<Bytes>, m: nat, off: nat, n: nat)
    requires off + n <= |leaves| && 0 < m <= n
    ensures PrefixFolds(sha, leaves, m, off, n)
    decreases n
  {
    if m < n {
      var k := Split(n);
      if m <= k {
        PrefixFoldsToRoots(sha, leaves, m, off, k);
        PrefixFoldsLeft(sha, leaves, m, off, n);
      } else {
        var m', off', n' := m - k, off + k, n - k;
        SplitIsPow2(n);
        SplitUnique(m, k);
        PrefixFoldsToRoots(sha, leaves, m', off', n');
        PrefixFoldsRight(sha, leaves, m, off, n, k, m', off', n');
      }
    }
  }

  lemma PrefixFoldsLeft(sha: Sha, leaves: seq<Bytes>, m: nat, off: nat, n: nat)
    requires off + n <= |leaves| && n >= 2 && 0 < m <= Split(n)
    requires PrefixFolds(sha, leaves, m, off, Split(n))
    ensures PrefixFolds(sha, leaves, m, off, n)
  {
    var k := Split(n);
    var seed, siblings := PrefixSeed(sha, leaves, m, off, k), PrefixSiblings(sha, leaves, m, off, k);
    FoldBothSnoc(sha, seed, PrefixRoute(m, k), siblings, Left, RangeRoot(sha, leaves, off + k, n - k));
  }

  lemma PrefixFoldsRight(sha: Sha, leaves: seq<Bytes>, m: nat, off: nat, n: nat, k: nat, m': nat, off': nat, n': nat)
    requires off + n <= |leaves| && n >= 2 && k < m < n
    requires k == Split(n) == Split(m) && m' == m - k && off' == off + k && n' == n - k
    requires PrefixFolds(sha, leaves, m', off', n')
    ensures PrefixFolds(sha, leaves, m, off, n)
  {
    var seed, siblings := PrefixSeed(sha, leaves, m', off', n'), PrefixSiblings(sha, leaves, m', off', n');
    var left := RangeRoot(sha, leaves, off, k);
    SeedRight(sha, leaves, m, off, n, k, m', off', n');
    SiblingsRight(sha, leaves, m, off, n, k, m', off', n');
    PrefixRouteRight(m, n, m', n');
    FoldBothSnoc(sha, seed, PrefixRoute(m', n'), siblings, Right, left);
    RootSplits(sha, leaves, off, m, k, off', m');
    RootSplits(sha, leaves, off, n, k, off', n');
  }

  lemma RootSplits(sha: Sha, leaves: seq<Bytes>, off: nat, n: nat, k: nat, off': nat, n': nat)
    requires off + n <= |leaves| && n >= 2 && k == Split(n) && off' == off + k && n' == n - k
    ensures RangeRoot(sha, leaves, off, n)
      == NodeHash(sha, RangeRoot(sha, leaves, off, k), RangeRoot(sha, leaves, off', n'))
  {
  }

  /** Completeness: the generated proof takes the verifier from the old root to the new one. */
  lemma ConsistencyComplete(sha: Sha, leaves: seq<Bytes>, m: nat)
    requires 0 < m <= |leaves|
    ensures ConsistencyAccepted(sha, m, |leaves|, ConsistencyPath(sha, leaves, m),
                                Root(sha, leaves[..m]), Root(sha, leaves))
  {
    PrefixRoot(sha, leaves, m);
    if m < |leaves| {
      WalkedPath(sha, leaves, m);
      PrefixFoldsToRoots(sha, leaves, m, 0, |leaves|);
    } else {
      assert leaves[..m] == leaves;
    }
  }

  /** What the verifier walks, given the generated proof, is the generated seed and siblings. */
  lemma WalkedPath(sha: Sha, leaves: seq<Bytes>, m: nat)
    requires 0 < m < |leaves|
    ensures var pr := Walked(m, ConsistencyPath(sha, leaves, m), RangeRoot(sha, leaves, 0, m));
      && |pr| > 0
      && pr[0] == PrefixSeed(sha, leaves, m, 0, |leaves|)
      && pr[1..] == PrefixSiblings(sha, leaves, m, 0, |leaves|)
  {
    var n := |leaves|;
    SubPathShape(sha, leaves, m, 0, n, true);
    SeedKnownIsPow2(m, n);
    if IsPow2(m) {
      KnownSeed(sha, leaves, m, 0, n);
    }
  }

  lemma {:induction false} KnownSeed(sha: Sha, leaves: seq<Bytes>, m: nat, off: nat, n: nat)
    requires off + n <= |leaves| && 0 < m <= n && SeedKnown(m, n)
    ensures PrefixSeed(sha, leaves, m, off, n) == RangeRoot(sha, leaves, off, m)
    decreases n
  {
    if m < n {
      KnownSeed(sha, leaves, m, off, Split(n));
    }
  }

  // ---------------------------------------------------------------- soundness

  /** `inputs` holds every byte string hashed while rebuilding the old root. */
  ghost predicate CoversOld(inputs: set<Bytes>, sha: Sha, seed: Bytes, route: seq<Turn>, siblings: seq<Bytes>, i: nat)
    requires i <= |siblings|
  {
    i == 0 ||
    (&& (TurnAt(route, i - 1) == Right ==>
           NodeInput(siblings[i - 1], FoldOld(sha, seed, route, siblings, i - 1)) in inputs)
     && CoversOld(inputs, sha, seed, route, siblings, i - 1))
  }

  /** The walk's first i turns are those of the m-prefix of n leaves. */
  ghost predicate Follows(route: seq<Turn>, i: nat, m: nat, n: nat)
    requires 0 < m <= n
  {
    |PrefixRoute(m, n)| == i && forall j :: 0 <= j < i ==> TurnAt(route, j) == PrefixRoute(m, n)[j]
  }

  lemma FollowsLeft(route: seq<Turn>, i: nat, m: nat, n: nat, k: nat)
    requires n >= 2 && k == Split(n) && 0 < m <= k && Follows(route, i, m, n)
    ensures i > 0 && TurnAt(route, i - 1) == Left && Follows(route, i - 1, m, k)
  {
    assert PrefixRoute(m, n) == PrefixRoute(m, k) + [Left];
    assert forall j :: 0 <= j < i - 1 ==> PrefixRoute(m, n)[j] == PrefixRoute(m, k)[j];
  }

  lemma FollowsRight(route: seq<Turn>, i: nat, m: nat, n: nat, m': nat, n': nat)
    requires n >= 2 && Split(n) < m < n && Follows(route, i, m, n)
    requires m' == m - Split(n) && n' == n - Split(n)
    ensures i > 1 && TurnAt(route, i - 1) == Right && Follows(route, i - 1, m', n')
  {
    assert PrefixRoute(m, n) == PrefixRoute(m', n') + [Right];
    assert forall j :: 0 <= j < i - 1 ==> PrefixRoute(m, n)[j] == PrefixRoute(m', n')[j];
    assert |PrefixRoute(m', n')| > 0;
  }

  /** The leaves agree, and seed and siblings are the generated ones. */
  ghost predicate OpensPrefix(sha: Sha, a: seq<Bytes>, b: seq<Bytes>, seed: Bytes, siblings: seq<Bytes>, i: nat,
                              m: nat, off: nat, n: nat)
    requires i <= |siblings| && off + m <= |a| && off + n <= |b| && 0 < m <= n
  {
    && (forall j :: off <= j < off + m ==> a[j] == b[j])
    && seed == PrefixSeed(sha, b, m, off, n)
    && siblings[..i] == PrefixSiblings(sha, b, m, off, n)
  }

  lemma OpensPrefixLeft(sha: Sha, a: seq<Bytes>, b: seq<Bytes>, seed: Bytes, siblings: seq<Bytes>, i: nat,
                        m: nat, off: nat, n: nat, k: nat, off': nat, n': nat)
    requires 0 < i <= |siblings| && off + m <= |a| && off + n <= |b| && n >= 2
    requires k == Split(n) && off' == off + k && n' == n - k && 0 < m <= k
    requires OpensPrefix(sha, a, b, seed, siblings, i - 1, m, off, k)
    requires siblings[i - 1] == RangeRoot(sha, b, off', n')
    ensures OpensPrefix(sha, a, b, seed, siblings, i, m, off, n)
  {
    assert siblings[..i] == siblings[..i - 1] + [siblings[i - 1]];
    assert PrefixSiblings(sha, b, m, off, n) == PrefixSiblings(sha, b, m, off, k) + [siblings[i - 1]];
  }

  lemma OpensPrefixRight(sha: Sha, a: seq<Bytes>, b: seq<Bytes>, seed: Bytes, siblings: seq<Bytes>, i: nat,
                         m: nat, off: nat, n: nat, k: nat, m': nat, off': nat, n': nat)
    requires 0 < i <= |siblings| && off + m <= |a| && off + n <= |b| && n >= 2
    requires k == Split(n) && m' == m - k && off' == off + k && n' == n - k && k < m < n
    requires OpensPrefix(sha, a, b, seed, siblings, i - 1, m', off', n')
    requires siblings[i - 1] == RangeRoot(sha, b, off, k)
    requires forall j :: off <= j < off + k ==> a[j] == b[j]
    ensures OpensPrefix(sha, a, b, seed, siblings, i, m, off, n)
  {
    assert siblings[..i] == siblings[..i - 1] + [siblings[i - 1]];
    assert PrefixSiblings(sha, b, m, off, n) == PrefixSiblings(sha, b, m', off', n') + [siblings[i - 1]];
  }

  /** Seed and siblings rebuild both real roots along the prefix's route. */
  ghost predicate Meets(sha: Sha, inputs: set<Bytes>, a: seq<Bytes>, b: seq<Bytes>, seed: Bytes,
                        route: seq<Turn>, siblings: seq<Bytes>, i: nat, m: nat, off: nat, n: nat)
    requires i <= |siblings| && off + m <= |a| && off + n <= |b| && 0 < m <= n
  {
    && CoversTree(inputs, sha, a, off, m) && CoversTree(inputs, sha, b, off, n)
    && CoversOld(inputs, sha, seed, route, siblings, i) && CoversFold(inputs, sha, seed, route, siblings, i)
    && Follows(route, i, m, n)
    && FoldOld(sha, seed, route, siblings, i) == RangeRoot(sha, a, off, m)
    && Fold(sha, seed, route, siblings, i) == RangeRoot(sha, b, off, n)
  }

  lemma PeelLeft(sha: Sha, inputs: set<Bytes>, a: seq<Bytes>, b: seq<Bytes>, seed: Bytes,
                 route: seq<Turn>, siblings: seq<Bytes>, i: nat, m: nat, off: nat, n: nat,
                 k: nat, off': nat, n': nat)
    requires i <= |siblings| && off + m <= |a| && off + n <= |b| && n >= 2
    requires k == Split(n) && off' == off + k && n' == n - k && 0 < m <= k
    requires CollisionFree(sha, inputs) && Meets(sha, inputs, a, b, seed, route, siblings, i, m, off, n)
    ensures i > 0 && Meets(sha, inputs, a, b, seed, route, siblings, i - 1, m, off, k)
    ensures siblings[i - 1] == RangeRoot(sha, b, off', n')
  {
    FollowsLeft(route, i, m, n, k);
    RootLength(sha, a, off, m);
    assert FoldOld(sha, seed, route, siblings, i - 1) == RangeRoot(sha, a, off, m);
    FoldLength(sha, seed, route, siblings, i - 1);
    PeelTop(sha, inputs, seed, route, siblings, i, b, off, n, k, off', n');
  }

  lemma PeelOld(sha: Sha, inputs: set<Bytes>, a: seq<Bytes>, seed: Bytes, route: seq<Turn>, siblings: seq<Bytes>,
                i: nat,
                m: nat, off: nat, k: nat, m': nat, off': nat)
    requires 0 < i <= |siblings| && off + m <= |a| && m >= 2
    requires k == Split(m) && m' == m - k && off' == off + k
    requires CollisionFree(sha, inputs) && |siblings[i - 1]| == 32 && TurnAt(route, i - 1) == Right
    requires CoversOld(inputs, sha, seed, route, siblings, i) && CoversTree(inputs, sha, a, off, m)
    requires FoldOld(sha, seed, route, siblings, i) == RangeRoot(sha, a, off, m)
    ensures CoversOld(inputs, sha, seed, route, siblings, i - 1)
    ensures CoversTree(inputs, sha, a, off, k) && CoversTree(inputs, sha, a, off', m')
    ensures siblings[i - 1] == RangeRoot(sha, a, off, k)
    ensures FoldOld(sha, seed, route, siblings, i - 1) == RangeRoot(sha, a, off', m')
  {
    NodeHashInjective(sha, inputs, siblings[i - 1], FoldOld(sha, seed, route, siblings, i - 1),
      RangeRoot(sha, a, off, k), RangeRoot(sha, a, off', m'));
  }

  lemma PeelRight(sha: Sha, inputs: set<Bytes>, a: seq<Bytes>, b: seq<Bytes>, seed: Bytes,
                  route: seq<Turn>, siblings: seq<Bytes>, i: nat, m: nat, off: nat, n: nat,
                  k: nat, m': nat, off': nat, n': nat)
    requires i <= |siblings| && off + m <= |a| && off + n <= |b| && n >= 2 && Split(n) < m < n
    requires k == Split(n) && m' == m - k && off' == off + k && n' == n - k
    requires CollisionFree(sha, inputs) && Meets(sha, inputs, a, b, seed, route, siblings, i, m, off, n)
    ensures i > 0 && Meets(sha, inputs, a, b, seed, route, siblings, i - 1, m', off', n')
    ensures siblings[i - 1] == RangeRoot(sha, b, off, k) == RangeRoot(sha, a, off, k)
    ensures CoversTree(inputs, sha, a, off, k) && CoversTree(inputs, sha, b, off, k)
  {
    SplitIsPow2(n);
    SplitUnique(m, k);
    FollowsRight(route, i, m, n, m', n');
    FoldLength(sha, seed, route, siblings, i - 1);
    PeelTop(sha, inputs, seed, route, siblings, i, b, off, n, k, off', n');
    PeelOld(sha, inputs, a, seed, route, siblings, i, m, off, k, m', off');
  }

  /** Any seed and siblings that rebuild both real roots open the first tree as a prefix of the second. */
  lemma {:induction false} OpenPrefix(
    sha: Sha, inputs: set<Bytes>, a: seq<Bytes>, b: seq<Bytes>, seed: Bytes,
    route: seq<Turn>, siblings: seq<Bytes>, i: nat, m: nat, off: nat, n: nat)
    requires i <= |siblings| && off + m <= |a| && off + n <= |b| && 0 < m <= n
    requires CollisionFree(sha, inputs) && Meets(sha, inputs, a, b, seed, route, siblings, i, m, off, n)
    ensures OpensPrefix(sha, a, b, seed, siblings, i, m, off, n)
    decreases n, 1
  {
    if m == n {
      RootInjective(sha, inputs, a, b, off, n);
    } else {
      var k := Split(n);
      var off', n' := off + k, n - k;
      if m <= k {
        OpenPrefixLeft(sha, inputs, a, b, seed, route, siblings, i, m, off, n, k, off', n');
      } else {
        OpenPrefixRight(sha, inputs, a, b, seed, route, siblings, i, m, off, n, k, m - k, off', n');
      }
    }
  }

  lemma {:induction false} OpenPrefixLeft(
    sha: Sha, inputs: set<Bytes>, a: seq<Bytes>, b: seq<Bytes>, seed: Bytes,
    route: seq<Turn>, siblings: seq<Bytes>, i: nat, m: nat, off: nat, n: nat, k: nat, off': nat, n': nat)
    requires i <= |siblings| && off + m <= |a| && off + n <= |b| && 0 < m < n
    requires k == Split(n) && off' == off + k && n' == n - k && m <= k
    requires CollisionFree(sha, inputs) && Meets(sha, inputs, a, b, seed, route, siblings, i, m, off, n)
    ensures OpensPrefix(sha, a, b, seed, siblings, i, m, off, n)
    decreases n, 0
  {
    PeelLeft(sha, inputs, a, b, seed, route, siblings, i, m, off, n, k, off', n');
    OpenPrefix(sha, inputs, a, b, seed, route, siblings, i - 1, m, off, k);
    OpensPrefixLeft(sha, a, b, seed, siblings, i, m, off, n, k, off', n');
  }

  lemma {:induction false} OpenPrefixRight(
    sha: Sha, inputs: set<Bytes>, a: seq<Bytes>, b: seq<Bytes>, seed: Bytes,
    route: seq<Turn>, siblings: seq<Bytes>, i: nat, m: nat, off: nat, n: nat, k: nat, m': nat, off': nat, n': nat)
    requires i <= |siblings| && off + m <= |a| && off + n <= |b| && 0 < m < n
    requires k == Split(n) && off' == off + k && n' == n - k && m > k && m' == m - k
    requires CollisionFree(sha, inputs) && Meets(sha, inputs, a, b, seed, route, siblings, i, m, off, n)
    ensures OpensPrefix(sha, a, b, seed, siblings, i, m, off, n)
    decreases n, 0
  {
    PeelRight(sha, inputs, a, b, seed, route, siblings, i, m, off, n, k, m', off', n');
    RootInjective(sha, inputs, a, b, off, k);
    OpenPrefix(sha, inputs, a, b, seed, route, siblings, i - 1, m', off', n');
    OpensPrefixRight(sha, a, b, seed, siblings, i, m, off, n, k, m', off', n');
  }

  /** `inputs` holds every byte string that `VerifyConsistency` hashes. */
  ghost predicate CoversConsistency(inputs: set<Bytes>, sha: Sha, m: int, n: int, proof: seq<Bytes>, oldRoot: Bytes) {
    0 < m < n ==> CoversWalk(inputs, sha, m, n, Walked(m, proof, oldRoot))
  }

  ghost predicate CoversWalk(inputs: set<Bytes>, sha: Sha, m: nat, n: nat, pr: seq<Bytes>)
    requires 0 < m < n
  {
    |pr| > 0 ==>
      && CoversOld(inputs, sha, pr[0], PrefixRoute(m, n), pr[1..], |pr[1..]|)
      && CoversFold(inputs, sha, pr[0], PrefixRoute(m, n), pr[1..], |pr[1..]|)
  }

  /** Soundness: between real roots, acceptance means the old leaves are the new tree's first. */
  lemma ConsistencySound(sha: Sha, inputs: set<Bytes>, a: seq<Bytes>, b: seq<Bytes>, proof: seq<Bytes>)
    requires CollisionFree(sha, inputs)
    requires CoversTree(inputs, sha, a, 0, |a|) && CoversTree(inputs, sha, b, 0, |b|)
    requires CoversConsistency(inputs, sha, |a|, |b|, proof, Root(sha, a))
    requires ConsistencyAccepted(sha, |a|, |b|, proof, Root(sha, a), Root(sha, b))
    ensures 0 < |a| <= |b| && a == b[..|a|] && proof == ConsistencyPath(sha, b, |a|)
  {
    if |a| == |b| {
      EqualSound(sha, inputs, a, b, proof);
    } else {
      LargerSound(sha, inputs, a, b, proof, Walked(|a|, proof, Root(sha, a)));
    }
  }

  lemma EqualSound(sha: Sha, inputs: set<Bytes>, a: seq<Bytes>, b: seq<Bytes>, proof: seq<Bytes>)
    requires 0 < |a| == |b| && proof == [] && Root(sha, a) == Root(sha, b)
    requires CollisionFree(sha, inputs)
    requires CoversTree(inputs, sha, a, 0, |a|) && CoversTree(inputs, sha, b, 0, |b|)
    ensures a == b[..|a|] && proof == ConsistencyPath(sha, b, |a|)
  {
    RootInjective(sha, inputs, a, b, 0, |b|);
  }

  lemma LargerSound(sha: Sha, inputs: set<Bytes>, a: seq<Bytes>, b: seq<Bytes>, proof: seq<Bytes>, pr: seq<Bytes>)
    requires 0 < |a| < |b| && pr == Walked(|a|, proof, Root(sha, a))
    requires CollisionFree(sha, inputs)
    requires CoversTree(inputs, sha, a, 0, |a|) && CoversTree(inputs, sha, b, 0, |b|)
    requires CoversWalk(inputs, sha, |a|, |b|, pr) && WalkAccepted(sha, |a|, |b|, pr, Root(sha, a), Root(sha, b))
    ensures a == b[..|a|] && proof == ConsistencyPath(sha, b, |a|)
  {
    var seed, siblings := pr[0], pr[1..];
    RebuiltIsPrefix(sha, inputs, a, b, seed, siblings);
    SamePrefix(a, b);
    WalkedIsPath(sha, a, b, proof, pr);
  }

  lemma SamePrefix(a: seq<Bytes>, b: seq<Bytes>)
    requires |a| <= |b| && forall j :: 0 <= j < |a| ==> a[j] == b[j]
    ensures a == b[..|a|]
  {
  }

  lemma WalkedIsPath(sha: Sha, a: seq<Bytes>, b: seq<Bytes>, proof: seq<Bytes>, pr: seq<Bytes>)
    requires 0 < |a| < |b| && pr == Walked(|a|, proof, Root(sha, a)) && |pr| > 0
    requires forall j :: 0 <= j < |a| ==> a[j] == b[j]
    requires pr[0] == PrefixSeed(sha, b, |a|, 0, |b|) && pr[1..] == PrefixSiblings(sha, b, |a|, 0, |b|)
    ensures proof == ConsistencyPath(sha, b, |a|)
  {
    RangeCongruence(sha, a, b, 0, |a|);
    WalkedPath(sha, b, |a|);
    WalkedInjective(|a|, proof, ConsistencyPath(sha, b, |a|), Root(sha, a));
  }

  lemma RebuiltIsPrefix(sha: Sha, inputs: set<Bytes>, a: seq<Bytes>, b: seq<Bytes>, seed: Bytes, siblings: seq<Bytes>)
    requires 0 < |a| < |b|
    requires CollisionFree(sha, inputs)
    requires CoversTree(inputs, sha, a, 0, |a|) && CoversTree(inputs, sha, b, 0, |b|)
    requires CoversOld(inputs, sha, seed, PrefixRoute(|a|, |b|), siblings, |siblings|)
    requires CoversFold(inputs, sha, seed, PrefixRoute(|a|, |b|), siblings, |siblings|)
    requires Rebuilds(sha, |a|, |b|, seed, siblings, Root(sha, a), Root(sha, b))
    ensures forall j :: 0 <= j < |a| ==> a[j] == b[j]
    ensures seed == PrefixSeed(sha, b, |a|, 0, |b|)
    ensures siblings == PrefixSiblings(sha, b, |a|, 0, |b|)
  {
    OpenPrefix(sha, inputs, a, b, seed, PrefixRoute(|a|, |b|), siblings, |siblings|, |a|, 0, |b|);
    assert siblings[..|siblings|] == siblings;
  }

  lemma WalkedInjective(m: nat, p: seq<Bytes>, p': seq<Bytes>, oldRoot: Bytes)
    requires |Walked(m, p, oldRoot)| > 0 && |Walked(m, p', oldRoot)| > 0
    requires Walked(m, p, oldRoot)[0] == Walked(m, p', oldRoot)[0]
    requires Walked(m, p, oldRoot)[1..] == Walked(m, p', oldRoot)[1..]
    ensures p == p'
  {
    var pr, pr' := Walked(m, p, oldRoot), Walked(m, p', oldRoot);
    assert pr == [pr[0]] + pr[1..] && pr' == [pr'[0]] + pr'[1..];
    if IsPow2(m) {
      assert p == pr[1..] && p' == pr'[1..];
    }
  }

  /**
   Between two real roots, the verifier accepts exactly when the old leaves are a
   non-empty prefix of the new ones and the proof is the generated one.
   */
  lemma ConsistencyExact(sha: Sha, inputs: set<Bytes>, a: seq<Bytes>, b: seq<Bytes>, proof: seq<Bytes>)
    requires CollisionFree(sha, inputs)
    requires CoversTree(inputs, sha, a, 0, |a|) && CoversTree(inputs, sha, b, 0, |b|)
    requires CoversConsistency(inputs, sha, |a|, |b|, proof, Root(sha, a))
    ensures ConsistencyAccepted(sha, |a|, |b|, proof, Root(sha, a), Root(sha, b))
      <==> 0 < |a| && a <= b && proof == ConsistencyPath(sha, b, |a|)
  {
    if ConsistencyAccepted(sha, |a|, |b|, proof, Root(sha, a), Root(sha, b)) {
      ConsistencySound(sha, inputs, a, b, proof);
    } else if 0 < |a| && a <= b {
      assert b[..|a|] == a;
      ConsistencyComplete(sha, b, |a|);
    }
  }
}
