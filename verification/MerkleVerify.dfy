/**
 The two proof verifiers of internal/audit/merkle.go and what their answers mean.

 Trees and proofs are built top-down, by splitting at the largest power of two;
 the verifiers walk bottom-up, over the bits of a pair (fn, sn). The bridge is
 the *route* of a node: the turns taken from the node up to the root. Each
 verifier is first proved to follow the top-down route exactly, and the theorems
 are then inductions over the tree.
 */
module MerkleVerify {
  import opened Hashing
  import opened Merkle

  /** Left: the node is a left child, its sibling joins on the right. */
  datatype Turn = Left | Right

  // ---------------------------------------------------------------- routes, top-down and by bits

  /** The turns from leaf m up to the root of a tree of n leaves. */
  ghost function Route(m: nat, n: nat): seq<Turn>
    requires m < n
    decreases n
  {
    if n == 1 then []
    else
      var k := Split(n);
      if m < k then Route(m, k) + [Left] else Route(m - k, n - k) + [Right]
  }

  /** One level of the bit walk: a lone last node rises without a turn. */
  function Step(fn: nat, sn: nat): seq<Turn> {
    if fn % 2 == 1 then [Right] else if fn == sn then [] else [Left]
  }

  function Climb(fn: nat, sn: nat): seq<Turn>
    requires fn <= sn
  {
    if sn == 0 then [] else Step(fn, sn) + Climb(fn / 2, sn / 2)
  }

  lemma {:induction false} ClimbEmpty(fn: nat, sn: nat)
    requires fn <= sn
    ensures Climb(fn, sn) == [] <==> sn == 0
  {
    if sn > 0 && fn == sn {
      ClimbEmpty(fn / 2, sn / 2);
    }
  }

  lemma {:induction false} RouteHalving(m: nat, n: nat)
    requires m < n && n >= 2
    ensures Route(m, n) == Step(m, n - 1) + Route(m / 2, (n + 1) / 2)
    decreases n
  {
    if n > 2 {
      SplitHalving(n);
      var k, h, m' := Split(n), (n + 1) / 2, m / 2;
      var j := Split(h);
      if m < k {
        StepLeft(m, n, k, j);
        RouteHalving(m, k);
        RouteHalvingLeft(m, n, m', h, k, j);
      } else {
        var a, b, a', b' := m - k, n - k, m' - j, h - j;
        StepRight(m, n, k, j, a, b, m', h, a', b');
        if b >= 2 {
          RouteHalving(a, b);
        }
        RouteHalvingRight(m, n, m', h, k, j, a, b, a', b');
      }
    }
  }

  lemma StepLeft(m: nat, n: nat, k: nat, j: nat)
    requires m < k < n && k == 2 * j
    ensures (k + 1) / 2 == j && m / 2 < j && Step(m, k - 1) == Step(m, n - 1)
  {
  }

  lemma StepRight(m: nat, n: nat, k: nat, j: nat, a: nat, b: nat, m': nat, h: nat, a': nat, b': nat)
    requires 0 < k <= m < n && k == 2 * j && m' == m / 2 && h == (n + 1) / 2
    requires a == m - k && b == n - k && a' == m' - j && b' == h - j
    ensures a / 2 == a' && (b + 1) / 2 == b' && Step(a, b - 1) == Step(m, n - 1)
    ensures b == 1 ==> a == a' == 0 && b' == 1 && Step(m, n - 1) == []
  {
  }

  lemma RouteHalvingLeft(m: nat, n: nat, m': nat, h: nat, k: nat, j: nat)
    requires m < k && m' < j && n >= 2 && h >= 2 && k == Split(n) && j == Split(h)
    requires Route(m, k) == Step(m, n - 1) + Route(m', j)
    ensures Route(m, n) == Step(m, n - 1) + Route(m', h)
  {
    RouteLeft(m, n, k);
    RouteLeft(m', h, j);
    SnocAssociative(Step(m, n - 1), Route(m', j), Left);
  }

  lemma RouteHalvingRight(m: nat, n: nat, m': nat, h: nat, k: nat, j: nat, a: nat, b: nat, a': nat, b': nat)
    requires k <= m < n && j <= m' < h && n >= 2 && h >= 2 && k == Split(n) && j == Split(h)
    requires a == m - k && b == n - k && a' == m' - j && b' == h - j
    requires Route(a, b) == Step(m, n - 1) + Route(a', b')
    ensures Route(m, n) == Step(m, n - 1) + Route(m', h)
  {
    RouteRight(m, n, a, b);
    RouteRight(m', h, a', b');
    SnocAssociative(Step(m, n - 1), Route(a', b'), Right);
  }

  lemma RouteLeft(m: nat, n: nat, k: nat)
    requires n >= 2 && k == Split(n) && m < k
    ensures Route(m, n) == Route(m, k) + [Left]
  {
  }

  lemma RouteRight(m: nat, n: nat, a: nat, b: nat)
    requires n >= 2 && Split(n) <= m < n && a == m - Split(n) && b == n - Split(n)
    ensures Route(m, n) == Route(a, b) + [Right]
  {
  }

  lemma SnocAssociative(s: seq<Turn>, t: seq<Turn>, turn: Turn)
    ensures (s + t) + [turn] == s + (t + [turn])
  {
  }

  /** The bit walk from (m, n - 1) takes exactly the turns of the top-down route. */
  lemma {:induction false} RouteIsClimb(m: nat, n: nat)
    requires m < n
    ensures Route(m, n) == Climb(m, n - 1)
    decreases n
  {
    if n >= 2 {
      RouteHalving(m, n);
      RouteIsClimb(m / 2, (n + 1) / 2);
    }
  }

  // ---------------------------------------------------------------- inclusion

  /** Past the end of the route every turn is Right: the walk is at fn == sn == 0. */
  ghost function TurnAt(route: seq<Turn>, i: nat): Turn {
    if i < |route| then route[i] else Right
  }

  function Join(sha: Sha, turn: Turn, node: Bytes, sibling: Bytes): Bytes {
    if turn == Left then NodeHash(sha, node, sibling) else NodeHash(sha, sibling, node)
  }

  /** The hash reached from `node` after the first i siblings of `proof`. */
  ghost function Fold(sha: Sha, node: Bytes, route: seq<Turn>, proof: seq<Bytes>, i: nat): Bytes
    requires i <= |proof|
  {
    if i == 0 then node
    else Join(sha, TurnAt(route, i - 1), Fold(sha, node, route, proof, i - 1), proof[i - 1])
  }

  function JoinInput(turn: Turn, node: Bytes, sibling: Bytes): Bytes {
    if turn == Left then NodeInput(node, sibling) else NodeInput(sibling, node)
  }

  /** `inputs` holds every byte string hashed by the fold. */
  ghost predicate CoversFold(inputs: set<Bytes>, sha: Sha, node: Bytes, route: seq<Turn>, proof: seq<Bytes>, i: nat)
    requires i <= |proof|
  {
    i == 0 ||
    (&& JoinInput(TurnAt(route, i - 1), Fold(sha, node, route, proof, i - 1), proof[i - 1]) in inputs
     && CoversFold(inputs, sha, node, route, proof, i - 1))
  }

  /** What acceptance by `VerifyInclusion` amounts to, over the top-down route. */
  ghost predicate InclusionAccepted(sha: Sha, leaf: Bytes, m: int, size: int, proof: seq<Bytes>, root: Bytes) {
    && 0 <= m < size
    && |Route(m, size)| <= |proof|
    && Fold(sha, LeafHash(sha, leaf), Route(m, size), proof, |proof|) == root
  }

  /** Whether the next sibling joins on the left. */
  predicate IsRightTurn(fn: nat, sn: nat) {
    fn == sn || fn % 2 == 1
  }

  /**
   The verifiers' shift: after a right turn a lone last node first rises, without
   a turn, until it is a right child; then both numbers lose their last bit.
   */
  method Rise(fn0: nat, sn0: nat) returns (fn: nat, sn: nat)
    requires fn0 <= sn0
    ensures fn <= sn
    ensures sn0 == 0 ==> sn == 0
    ensures sn0 > 0 ==> Climb(fn0, sn0) == [if IsRightTurn(fn0, sn0) then Right else Left] + Climb(fn, sn)
  {
    fn, sn := fn0, sn0;
    if IsRightTurn(fn, sn) {
      while fn % 2 == 0 && fn != 0
        invariant fn == sn || (fn < sn && fn % 2 == 1)
        invariant sn == 0 <==> sn0 == 0
        invariant Climb(fn, sn) == Climb(fn0, sn0)
      {
        fn, sn := fn / 2, sn / 2;
      }
    }
    fn, sn := fn / 2, sn / 2;
  }

  /** The turns still ahead after i of them. */
  ghost function Ahead(route: seq<Turn>, i: nat): seq<Turn> {
    if i <= |route| then route[i..] else []
  }

  /** The walk and the route stay in step: same next turn, same turns after it. */
  lemma InStep(route: seq<Turn>, i: nat, fn: nat, sn: nat, rest: seq<Turn>)
    requires fn <= sn && Climb(fn, sn) == Ahead(route, i)
    requires sn > 0 ==> Climb(fn, sn) == [if IsRightTurn(fn, sn) then Right else Left] + rest
    requires sn == 0 ==> rest == []
    ensures TurnAt(route, i) == if IsRightTurn(fn, sn) then Right else Left
    ensures rest == Ahead(route, i + 1)
    ensures sn > 0 <==> i < |route|
  {
    ClimbEmpty(fn, sn);
    if i < |route| {
      assert Ahead(route, i) == [route[i]] + Ahead(route, i + 1);
    }
  }

  /** The verifier's loop, from any pair of numbers. */
  method FoldUp(sha: Sha, start: Bytes, proof: seq<Bytes>, fn0: nat, sn0: nat) returns (complete: bool, node: Bytes)
    requires fn0 <= sn0
    ensures complete <==> |Climb(fn0, sn0)| <= |proof|
    ensures node == Fold(sha, start, Climb(fn0, sn0), proof, |proof|)
  {
    ghost var route := Climb(fn0, sn0);
    node := start;
    var fn, sn := fn0, sn0;
    for i := 0 to |proof|
      invariant fn <= sn && Climb(fn, sn) == Ahead(route, i)
      invariant node == Fold(sha, start, route, proof, i)
    {
      var right := IsRightTurn(fn, sn);
      node := if right then NodeHash(sha, proof[i], node) else NodeHash(sha, node, proof[i]);
      ghost var fn', sn' := fn, sn;
      fn, sn := Rise(fn, sn);
      InStep(route, i, fn', sn', Climb(fn, sn));
    }
    ClimbEmpty(fn, sn);
    complete := sn == 0;
  }

  method VerifyInclusion(sha: Sha, leaf: Bytes, m: int, size: int, proof: seq<Bytes>, root: Bytes)
    returns (ok: bool)
    ensures ok <==> InclusionAccepted(sha, leaf, m, size, proof, root)
  {
    if m < 0 || m >= size {
      return false;
    }
    RouteIsClimb(m, size);
    var complete, node := FoldUp(sha, LeafHash(sha, leaf), proof, m, size - 1);
    ok := complete && node == root;
  }

  /** Only the first i turns and siblings matter to a fold of length i. */
  lemma {:induction false} FoldCongruence(
    sha: Sha, node: Bytes, r: seq<Turn>, r': seq<Turn>, p: seq<Bytes>, p': seq<Bytes>, i: nat)
    requires i <= |p| && i <= |p'|
    requires forall j :: 0 <= j < i ==> TurnAt(r, j) == TurnAt(r', j) && p[j] == p'[j]
    ensures Fold(sha, node, r, p, i) == Fold(sha, node, r', p', i)
  {
    if i > 0 {
      FoldCongruence(sha, node, r, r', p, p', i - 1);
    }
  }

  lemma FoldSnoc(sha: Sha, node: Bytes, route: seq<Turn>, proof: seq<Bytes>, turn: Turn, sibling: Bytes)
    requires |route| == |proof|
    ensures Fold(sha, node, route + [turn], proof + [sibling], |proof| + 1)
      == Join(sha, turn, Fold(sha, node, route, proof, |proof|), sibling)
  {
    FoldCongruence(sha, node, route, route + [turn], proof, proof + [sibling], |proof|);
  }

  /** The generated path of leaf off + m has the route's length and leads to the range's root. */
  ghost predicate PathFolds(sha: Sha, leaves: seq<Bytes>, m: nat, off: nat, n: nat)
    requires off + n <= |leaves| && m < n
  {
    var path := RangePath(sha, leaves, m, off, n);
    && |path| == |Route(m, n)|
    && Fold(sha, LeafHash(sha, leaves[off + m]), Route(m, n), path, |path|) == RangeRoot(sha, leaves, off, n)
  }

  lemma {:induction false} PathFoldsToRoot(sha: Sha, leaves: seq<Bytes>, m: nat, off: nat, n: nat)
    requires off + n <= |leaves| && m < n
    ensures PathFolds(sha, leaves, m, off, n)
    decreases n
  {
    if n >= 2 {
      var k := Split(n);
      if m < k {
        PathFoldsToRoot(sha, leaves, m, off, k);
        PathFoldsLeft(sha, leaves, m, off, n);
      } else {
        var m', off', n' := m - k, off + k, n - k;
        PathFoldsToRoot(sha, leaves, m', off', n');
        PathFoldsRight(sha, leaves, m, off, n, k, m', off', n');
      }
    }
  }

  lemma PathFoldsLeft(sha: Sha, leaves: seq<Bytes>, m: nat, off: nat, n: nat)
    requires off + n <= |leaves| && n >= 2 && m < Split(n)
    requires PathFolds(sha, leaves, m, off, Split(n))
    ensures PathFolds(sha, leaves, m, off, n)
  {
    var k := Split(n);
    var route, path := Route(m, k), RangePath(sha, leaves, m, off, k);
    FoldSnoc(sha, LeafHash(sha, leaves[off + m]), route, path, Left, RangeRoot(sha, leaves, off + k, n - k));
  }

  lemma PathFoldsRight(sha: Sha, leaves: seq<Bytes>, m: nat, off: nat, n: nat, k: nat, m': nat, off': nat, n': nat)
    requires off + n <= |leaves| && n >= 2 && k <= m < n
    requires k == Split(n) && m' == m - k && off' == off + k && n' == n - k
    requires PathFolds(sha, leaves, m', off', n')
    ensures PathFolds(sha, leaves, m, off, n)
  {
    var left, path := RangeRoot(sha, leaves, off, k), RangePath(sha, leaves, m', off', n');
    assert off + m == off' + m';
    RouteRight(m, n, m', n');
    FoldSnoc(sha, LeafHash(sha, leaves[off + m]), Route(m', n'), path, Right, left);
    assert RangePath(sha, leaves, m, off, n) == path + [left];
  }

  // ceil(log2 n)
  function CeilLog2(n: nat): nat {
    if n <= 1 then 0 else 1 + CeilLog2((n + 1) / 2)
  }

  function Pow2(e: nat): nat {
    if e == 0 then 1 else 2 * Pow2(e - 1)
  }

  /** CeilLog2(n) is the least exponent whose power of two reaches n. */
  lemma {:induction false} CeilLog2Meaning(n: nat)
    requires n >= 1
    ensures n <= Pow2(CeilLog2(n))
    ensures n >= 2 ==> Pow2(CeilLog2(n) - 1) < n
  {
    if n >= 2 {
      CeilLog2Meaning((n + 1) / 2);
    }
  }

  lemma {:induction false} RouteLength(m: nat, n: nat)
    requires m < n
    ensures |Route(m, n)| <= CeilLog2(n)
    decreases n
  {
    if n >= 2 {
      RouteHalving(m, n);
      RouteLength(m / 2, (n + 1) / 2);
    }
  }

  /** Completeness: every generated path is accepted, and it is no longer than ceil(log2 n). */
  lemma InclusionComplete(sha: Sha, leaves: seq<Bytes>, m: nat)
    requires m < |leaves|
    ensures InclusionAccepted(sha, leaves[m], m, |leaves|, InclusionPath(sha, leaves, m), Root(sha, leaves))
    ensures |InclusionPath(sha, leaves, m)| <= CeilLog2(|leaves|)
  {
    PathFoldsToRoot(sha, leaves, m, 0, |leaves|);
    RouteLength(m, |leaves|);
  }

  /** A fold that took at least one step, or starts at a digest, is a digest. */
  lemma FoldLength(sha: Sha, node: Bytes, route: seq<Turn>, proof: seq<Bytes>, i: nat)
    requires i <= |proof| && Digests32(sha)
    requires i > 0 || |node| == 32
    ensures |Fold(sha, node, route, proof, i)| == 32
  {
  }

  /** The last step of a fold that reaches an inner node splits it into that node's two children. */
  lemma PeelTop(sha: Sha, inputs: set<Bytes>, node: Bytes, route: seq<Turn>, proof: seq<Bytes>, i: nat,
                leaves: seq<Bytes>, off: nat, n: nat, k: nat, off': nat, n': nat)
    requires 0 < i <= |proof| && off + n <= |leaves| && n >= 2
    requires k == Split(n) && off' == off + k && n' == n - k
    requires CollisionFree(sha, inputs) && |Fold(sha, node, route, proof, i - 1)| == 32
    requires CoversFold(inputs, sha, node, route, proof, i) && CoversTree(inputs, sha, leaves, off, n)
    requires Fold(sha, node, route, proof, i) == RangeRoot(sha, leaves, off, n)
    ensures CoversFold(inputs, sha, node, route, proof, i - 1)
    ensures CoversTree(inputs, sha, leaves, off, k) && CoversTree(inputs, sha, leaves, off', n')
    ensures TurnAt(route, i - 1) == Left ==>
      && Fold(sha, node, route, proof, i - 1) == RangeRoot(sha, leaves, off, k)
      && proof[i - 1] == RangeRoot(sha, leaves, off', n')
    ensures TurnAt(route, i - 1) == Right ==>
      && Fold(sha, node, route, proof, i - 1) == RangeRoot(sha, leaves, off', n')
      && proof[i - 1] == RangeRoot(sha, leaves, off, k)
  {
    var below, sibling := Fold(sha, node, route, proof, i - 1), proof[i - 1];
    var left, right := RangeRoot(sha, leaves, off, k), RangeRoot(sha, leaves, off', n');
    if TurnAt(route, i - 1) == Left {
      NodeHashInjective(sha, inputs, below, sibling, left, right);
    } else {
      NodeHashInjective(sha, inputs, sibling, below, left, right);
    }
  }

  lemma FoldIsNotLeaf(sha: Sha, inputs: set<Bytes>, node: Bytes, route: seq<Turn>, proof: seq<Bytes>, i: nat,
                      leaf: Bytes)
    requires 0 < i <= |proof|
    requires CollisionFree(sha, inputs) && LeafInput(leaf) in inputs
    requires CoversFold(inputs, sha, node, route, proof, i)
    ensures Fold(sha, node, route, proof, i) != LeafHash(sha, leaf)
  {
    var below, sibling := Fold(sha, node, route, proof, i - 1), proof[i - 1];
    assert JoinInput(TurnAt(route, i - 1), below, sibling) in inputs;
    if TurnAt(route, i - 1) == Left {
      LeafIsNotNode(sha, inputs, leaf, below, sibling);
    } else {
      LeafIsNotNode(sha, inputs, leaf, sibling, below);
    }
  }

  /** The walk's first i turns are those of leaf off + m of the range, and `leaf` is that leaf. */
  ghost predicate Opens(leaf: Bytes, route: seq<Turn>, i: nat, leaves: seq<Bytes>, off: nat, n: nat, m: nat)
    requires off + n <= |leaves|
  {
    && m < n
    && leaf == leaves[off + m]
    && |Route(m, n)| == i
    && forall j :: 0 <= j < i ==> TurnAt(route, j) == Route(m, n)[j]
  }

  lemma OpensLeft(leaf: Bytes, route: seq<Turn>, i: nat, leaves: seq<Bytes>, off: nat, n: nat, k: nat, m: nat)
    requires off + n <= |leaves| && n >= 2 && k == Split(n) && i > 0
    requires Opens(leaf, route, i - 1, leaves, off, k, m) && TurnAt(route, i - 1) == Left
    ensures Opens(leaf, route, i, leaves, off, n, m)
  {
    RouteLeft(m, n, k);
  }

  lemma OpensRight(leaf: Bytes, route: seq<Turn>, i: nat, leaves: seq<Bytes>, off: nat, n: nat,
                   k: nat, off': nat, n': nat, m': nat, m: nat)
    requires off + n <= |leaves| && n >= 2 && i > 0
    requires k == Split(n) && off' == off + k && n' == n - k && m == m' + k
    requires Opens(leaf, route, i - 1, leaves, off', n', m') && TurnAt(route, i - 1) == Right
    ensures Opens(leaf, route, i, leaves, off, n, m)
  {
    RouteRight(m, n, m', n');
  }

  /**
   A fold that starts at a leaf hash and ends at a tree's root is the path of one
   of the tree's leaves: same turns, same leaf. Too short a fold
   would make a leaf hash a node hash, too long a fold would put a node below a leaf.
   */
  lemma {:induction false} OpenPath(
    sha: Sha, inputs: set<Bytes>, leaf: Bytes, route: seq<Turn>, proof: seq<Bytes>, i: nat,
    leaves: seq<Bytes>, off: nat, n: nat) returns (m: nat)
    requires i <= |proof| && off + n <= |leaves| && n >= 1
    requires CollisionFree(sha, inputs) && LeafInput(leaf) in inputs
    requires CoversFold(inputs, sha, LeafHash(sha, leaf), route, proof, i)
    requires CoversTree(inputs, sha, leaves, off, n)
    requires Fold(sha, LeafHash(sha, leaf), route, proof, i) == RangeRoot(sha, leaves, off, n)
    ensures Opens(leaf, route, i, leaves, off, n, m)
    decreases n, 1
  {
    if i == 0 {
      m := 0;
      OpenedAtOnce(sha, inputs, leaf, route, leaves, off, n);
    } else if n == 1 {
      m := 0;
      FoldIsNotLeaf(sha, inputs, LeafHash(sha, leaf), route, proof, i, leaves[off]);
    } else {
      var k := Split(n);
      if TurnAt(route, i - 1) == Left {
        m := OpenLeft(sha, inputs, leaf, route, proof, i, leaves, off, n, k, off + k, n - k);
      } else {
        m := OpenRight(sha, inputs, leaf, route, proof, i, leaves, off, n, k, off + k, n - k);
      }
    }
  }

  lemma {:induction false} OpenLeft(
    sha: Sha, inputs: set<Bytes>, leaf: Bytes, route: seq<Turn>, proof: seq<Bytes>, i: nat,
    leaves: seq<Bytes>, off: nat, n: nat, k: nat, off': nat, n': nat) returns (m: nat)
    requires 0 < i <= |proof| && off + n <= |leaves| && n >= 2
    requires k == Split(n) && off' == off + k && n' == n - k && TurnAt(route, i - 1) == Left
    requires CollisionFree(sha, inputs) && LeafInput(leaf) in inputs
    requires CoversFold(inputs, sha, LeafHash(sha, leaf), route, proof, i)
    requires CoversTree(inputs, sha, leaves, off, n)
    requires Fold(sha, LeafHash(sha, leaf), route, proof, i) == RangeRoot(sha, leaves, off, n)
    ensures Opens(leaf, route, i, leaves, off, n, m)
    decreases n, 0
  {
    var seed, j := LeafHash(sha, leaf), i - 1;
    assert CoversFold(inputs, sha, seed, route, proof, j) && CoversTree(inputs, sha, leaves, off, k)
        && Fold(sha, seed, route, proof, j) == RangeRoot(sha, leaves, off, k) by {
      FoldLength(sha, seed, route, proof, j);
      PeelTop(sha, inputs, seed, route, proof, i, leaves, off, n, k, off', n');
    }
    m := OpenPath(sha, inputs, leaf, route, proof, j, leaves, off, k);
    OpensLeft(leaf, route, i, leaves, off, n, k, m);
  }

  lemma {:induction false} OpenRight(
    sha: Sha, inputs: set<Bytes>, leaf: Bytes, route: seq<Turn>, proof: seq<Bytes>, i: nat,
    leaves: seq<Bytes>, off: nat, n: nat, k: nat, off': nat, n': nat) returns (m: nat)
    requires 0 < i <= |proof| && off + n <= |leaves| && n >= 2
    requires k == Split(n) && off' == off + k && n' == n - k && TurnAt(route, i - 1) == Right
    requires CollisionFree(sha, inputs) && LeafInput(leaf) in inputs
    requires CoversFold(inputs, sha, LeafHash(sha, leaf), route, proof, i)
    requires CoversTree(inputs, sha, leaves, off, n)
    requires Fold(sha, LeafHash(sha, leaf), route, proof, i) == RangeRoot(sha, leaves, off, n)
    ensures Opens(leaf, route, i, leaves, off, n, m)
    decreases n, 0
  {
    var seed, j := LeafHash(sha, leaf), i - 1;
    assert CoversFold(inputs, sha, seed, route, proof, j) && CoversTree(inputs, sha, leaves, off', n')
        && Fold(sha, seed, route, proof, j) == RangeRoot(sha, leaves, off', n') by {
      FoldLength(sha, seed, route, proof, j);
      PeelTop(sha, inputs, seed, route, proof, i, leaves, off, n, k, off', n');
    }
    var m' := OpenPath(sha, inputs, leaf, route, proof, j, leaves, off', n');
    m := m' + k;
    OpensRight(leaf, route, i, leaves, off, n, k, off', n', m', m);
  }

  lemma OpenedAtOnce(sha: Sha, inputs: set<Bytes>, leaf: Bytes, route: seq<Turn>, leaves: seq<Bytes>, off: nat, n: nat)
    requires off + n <= |leaves| && n >= 1
    requires CollisionFree(sha, inputs) && LeafInput(leaf) in inputs
    requires CoversTree(inputs, sha, leaves, off, n)
    requires LeafHash(sha, leaf) == RangeRoot(sha, leaves, off, n)
    ensures Opens(leaf, route, 0, leaves, off, n, 0)
  {
    if n == 1 {
      LeafHashInjective(sha, inputs, leaf, leaves[off]);
    } else {
      var k := Split(n);
      LeafIsNotNode(sha, inputs, leaf, RangeRoot(sha, leaves, off, k), RangeRoot(sha, leaves, off + k, n - k));
    }
  }

  /** One route, one start and one end leave no choice of siblings. */
  lemma {:induction false} FoldInjective(
    sha: Sha, inputs: set<Bytes>, node: Bytes, node': Bytes, route: seq<Turn>, p: seq<Bytes>, p': seq<Bytes>, i: nat)
    requires i <= |p| && i <= |p'| && |node| == |node'| == 32
    requires CollisionFree(sha, inputs)
    requires CoversFold(inputs, sha, node, route, p, i) && CoversFold(inputs, sha, node', route, p', i)
    requires Fold(sha, node, route, p, i) == Fold(sha, node', route, p', i)
    ensures node == node' && forall j :: 0 <= j < i ==> p[j] == p'[j]
  {
    if i > 0 {
      var below, below' := Fold(sha, node, route, p, i - 1), Fold(sha, node', route, p', i - 1);
      FoldLength(sha, node, route, p, i - 1);
      FoldLength(sha, node', route, p', i - 1);
      if TurnAt(route, i - 1) == Left {
        NodeHashInjective(sha, inputs, below, p[i - 1], below', p'[i - 1]);
      } else {
        NodeHashInjective(sha, inputs, p[i - 1], below, p'[i - 1], below');
      }
      FoldInjective(sha, inputs, node, node', route, p, p', i - 1);
    }
  }

  ghost predicate PathIsCovered(inputs: set<Bytes>, sha: Sha, leaves: seq<Bytes>, m: nat, off: nat, n: nat)
    requires off + n <= |leaves| && m < n
  {
    var path := RangePath(sha, leaves, m, off, n);
    && LeafInput(leaves[off + m]) in inputs
    && CoversFold(inputs, sha, LeafHash(sha, leaves[off + m]), Route(m, n), path, |path|)
  }

  /** Folding a generated path hashes nothing but the tree's inputs. */
  lemma {:induction false} PathCovered(sha: Sha, inputs: set<Bytes>, leaves: seq<Bytes>, m: nat, off: nat, n: nat)
    requires off + n <= |leaves| && m < n
    requires CoversTree(inputs, sha, leaves, off, n)
    ensures PathIsCovered(inputs, sha, leaves, m, off, n)
    decreases n
  {
    if n >= 2 {
      var k := Split(n);
      var off', n' := off + k, n - k;
      if m < k {
        PathCovered(sha, inputs, leaves, m, off, k);
        PathFoldsToRoot(sha, leaves, m, off, k);
        PathCoveredLeft(sha, inputs, leaves, m, off, n, k, off', n');
      } else {
        var m' := m - k;
        PathCovered(sha, inputs, leaves, m', off', n');
        PathFoldsToRoot(sha, leaves, m', off', n');
        PathCoveredRight(sha, inputs, leaves, m, off, n, k, m', off', n');
      }
    }
  }

  lemma PathCoveredLeft(sha: Sha, inputs: set<Bytes>, leaves: seq<Bytes>, m: nat, off: nat, n: nat,
                        k: nat, off': nat, n': nat)
    requires off + n <= |leaves| && n >= 2 && k == Split(n) && off' == off + k && n' == n - k && m < k
    requires CoversTree(inputs, sha, leaves, off, n)
    requires PathIsCovered(inputs, sha, leaves, m, off, k) && PathFolds(sha, leaves, m, off, k)
    ensures PathIsCovered(inputs, sha, leaves, m, off, n)
  {
    var right, path := RangeRoot(sha, leaves, off', n'), RangePath(sha, leaves, m, off, k);
    RouteLeft(m, n, k);
    JoinCovered(inputs, sha, leaves, off, n, k, off', n');
    CoversSnoc(inputs, sha, LeafHash(sha, leaves[off + m]), Route(m, k), path, Left, right);
    RangePathLeft(sha, leaves, m, off, n, k, off', n');
  }

  lemma JoinCovered(inputs: set<Bytes>, sha: Sha, leaves: seq<Bytes>, off: nat, n: nat, k: nat, off': nat, n': nat)
    requires off + n <= |leaves| && n >= 2 && k == Split(n) && off' == off + k && n' == n - k
    requires CoversTree(inputs, sha, leaves, off, n)
    ensures NodeInput(RangeRoot(sha, leaves, off, k), RangeRoot(sha, leaves, off', n')) in inputs
  {
  }

  lemma PathCoveredRight(sha: Sha, inputs: set<Bytes>, leaves: seq<Bytes>, m: nat, off: nat, n: nat,
                         k: nat, m': nat, off': nat, n': nat)
    requires off + n <= |leaves| && n >= 2 && k == Split(n) && off' == off + k
    requires n' == n - k && k <= m < n && m' == m - k
    requires CoversTree(inputs, sha, leaves, off, n)
    requires PathIsCovered(inputs, sha, leaves, m', off', n') && PathFolds(sha, leaves, m', off', n')
    ensures PathIsCovered(inputs, sha, leaves, m, off, n)
  {
    var left, path := RangeRoot(sha, leaves, off, k), RangePath(sha, leaves, m', off', n');
    var leaf, route := leaves[off + m], Route(m', n');
    JoinCovered(inputs, sha, leaves, off, n, k, off', n');
    RightCovered(sha, inputs, leaves, m', off', n', left);
    RouteRight(m, n, m', n');
    RangePathRight(sha, leaves, m, off, n, k, m', off', n');
    WholeCovered(sha, inputs, leaves, m, off, n, leaf, route + [Right], path + [left]);
  }

  /** One more sibling on the left, joined with the root of the range. */
  lemma RightCovered(sha: Sha, inputs: set<Bytes>, leaves: seq<Bytes>, m: nat, off: nat, n: nat, left: Bytes)
    requires off + n <= |leaves| && m < n && NodeInput(left, RangeRoot(sha, leaves, off, n)) in inputs
    requires PathIsCovered(inputs, sha, leaves, m, off, n) && PathFolds(sha, leaves, m, off, n)
    ensures var leaf, path := leaves[off + m], RangePath(sha, leaves, m, off, n);
      && LeafInput(leaf) in inputs
      && CoversFold(inputs, sha, LeafHash(sha, leaf), Route(m, n) + [Right], path + [left], |path| + 1)
  {
    var leaf, path := leaves[off + m], RangePath(sha, leaves, m, off, n);
    CoversSnoc(inputs, sha, LeafHash(sha, leaf), Route(m, n), path, Right, left);
  }

  lemma WholeCovered(sha: Sha, inputs: set<Bytes>, leaves: seq<Bytes>, m: nat, off: nat, n: nat, leaf: Bytes,
                     route: seq<Turn>, path: seq<Bytes>)
    requires off + n <= |leaves| && m < n && leaf == leaves[off + m] && route == Route(m, n)
    requires path == RangePath(sha, leaves, m, off, n) && LeafInput(leaf) in inputs
    requires CoversFold(inputs, sha, LeafHash(sha, leaf), route, path, |path|)
    ensures PathIsCovered(inputs, sha, leaves, m, off, n)
  {
  }

  lemma {:induction false} CoversCongruence(
    inputs: set<Bytes>, sha: Sha, node: Bytes, r: seq<Turn>, r': seq<Turn>, p: seq<Bytes>, p': seq<Bytes>, i: nat)
    requires i <= |p| && i <= |p'|
    requires forall j :: 0 <= j < i ==> TurnAt(r, j) == TurnAt(r', j) && p[j] == p'[j]
    requires CoversFold(inputs, sha, node, r, p, i)
    ensures CoversFold(inputs, sha, node, r', p', i)
  {
    if i > 0 {
      FoldCongruence(sha, node, r, r', p, p', i - 1);
      CoversCongruence(inputs, sha, node, r, r', p, p', i - 1);
    }
  }

  lemma CoversSnoc(inputs: set<Bytes>, sha: Sha, node: Bytes, route: seq<Turn>, proof: seq<Bytes>, turn: Turn,
                   sibling: Bytes)
    requires |route| == |proof| && CoversFold(inputs, sha, node, route, proof, |proof|)
    requires JoinInput(turn, Fold(sha, node, route, proof, |proof|), sibling) in inputs
    ensures CoversFold(inputs, sha, node, route + [turn], proof + [sibling], |proof| + 1)
  {
    FoldCongruence(sha, node, route, route + [turn], proof, proof + [sibling], |proof|);
    CoversCongruence(inputs, sha, node, route, route + [turn], proof, proof + [sibling], |proof|);
  }

  ghost predicate AllRight(route: seq<Turn>) {
    forall j :: 0 <= j < |route| ==> route[j] == Right
  }

  lemma {:induction false} OnlyLastIsAllRight(fn: nat, sn: nat)
    requires fn <= sn
    ensures AllRight(Climb(fn, sn)) <==> fn == sn
  {
    if sn > 0 {
      OnlyLastIsAllRight(fn / 2, sn / 2);
      var step, rest := Step(fn, sn), Climb(fn / 2, sn / 2);
      assert Climb(fn, sn) == step + rest;
      assert AllRight(step + rest) <==> AllRight(step) && AllRight(rest) by {
        assert forall j :: 0 <= j < |step| ==> (step + rest)[j] == step[j];
        assert forall j :: 0 <= j < |rest| ==> (step + rest)[|step| + j] == rest[j];
      }
      assert fn % 2 == 0 && fn < sn ==> step[0] == Left;
      assert fn % 2 == 1 ==> (fn == sn <==> fn / 2 == sn / 2);
    }
  }

  /** In one tree, no leaf's route is another's followed by right turns only. */
  lemma {:induction false} NoRightExtension(fn: nat, fn': nat, sn: nat)
    requires fn <= sn && fn' <= sn
    requires |Climb(fn, sn)| <= |Climb(fn', sn)|
    requires forall j :: 0 <= j < |Climb(fn', sn)| ==> TurnAt(Climb(fn, sn), j) == Climb(fn', sn)[j]
    ensures fn == fn'
    decreases sn
  {
    var c, c' := Climb(fn, sn), Climb(fn', sn);
    OnlyLastIsAllRight(fn, sn);
    OnlyLastIsAllRight(fn', sn);
    if fn < sn && fn' < sn {
      var d, d' := Climb(fn / 2, sn / 2), Climb(fn' / 2, sn / 2);
      assert c == Step(fn, sn) + d && c' == Step(fn', sn) + d';
      assert TurnAt(c, 0) == c'[0];
      forall j | 0 <= j < |d'| ensures TurnAt(d, j) == d'[j] {
        assert TurnAt(c, j + 1) == c'[j + 1];
      }
      NoRightExtension(fn / 2, fn' / 2, sn / 2);
    } else {
      assert forall j :: 0 <= j < |c'| ==> TurnAt(c, j) == c'[j];
      assert fn == sn ==> AllRight(c');
      assert forall j :: 0 <= j < |c| ==> c[j] == TurnAt(c, j) == c'[j];
      assert fn' == sn ==> AllRight(c);
    }
  }

  /** `inputs` holds every byte string that `VerifyInclusion` hashes. */
  ghost predicate CoversInclusion(inputs: set<Bytes>, sha: Sha, leaf: Bytes, m: int, size: int, proof: seq<Bytes>) {
    0 <= m < size ==>
      && LeafInput(leaf) in inputs
      && CoversFold(inputs, sha, LeafHash(sha, leaf), Route(m, size), proof, |proof|)
  }

  /** Soundness, for a proof of any length. */
  lemma InclusionSound(sha: Sha, inputs: set<Bytes>, leaves: seq<Bytes>, leaf: Bytes, m: int, proof: seq<Bytes>)
    requires CollisionFree(sha, inputs)
    requires CoversTree(inputs, sha, leaves, 0, |leaves|)
    requires CoversInclusion(inputs, sha, leaf, m, |leaves|, proof)
    requires InclusionAccepted(sha, leaf, m, |leaves|, proof, Root(sha, leaves))
    ensures leaf == leaves[m] && proof == InclusionPath(sha, leaves, m)
  {
    var n := |leaves|;
    var route, path := Route(m, n), InclusionPath(sha, leaves, m);
    var m' := OpenPath(sha, inputs, leaf, route, proof, |proof|, leaves, 0, n);
    SameRoute(m, m', n);
    PathFoldsToRoot(sha, leaves, m, 0, n);
    PathCovered(sha, inputs, leaves, m, 0, n);
    var start := LeafHash(sha, leaf);
    FoldInjective(sha, inputs, start, start, route, proof, path, |proof|);
  }

  lemma SameRoute(m: nat, m': nat, n: nat)
    requires m < n && m' < n && |Route(m, n)| <= |Route(m', n)|
    requires forall j :: 0 <= j < |Route(m', n)| ==> TurnAt(Route(m, n), j) == Route(m', n)[j]
    ensures m == m'
  {
    RouteIsClimb(m, n);
    RouteIsClimb(m', n);
    NoRightExtension(m, m', n - 1);
  }

  /**
   Against a real root, the verifier accepts exactly the m-th leaf with exactly its
   generated path: no other leaf, and no proof that is longer, shorter or altered.
   */
  lemma InclusionExact(sha: Sha, inputs: set<Bytes>, leaves: seq<Bytes>, leaf: Bytes, m: int, proof: seq<Bytes>)
    requires CollisionFree(sha, inputs)
    requires CoversTree(inputs, sha, leaves, 0, |leaves|)
    requires CoversInclusion(inputs, sha, leaf, m, |leaves|, proof)
    ensures InclusionAccepted(sha, leaf, m, |leaves|, proof, Root(sha, leaves))
      <==> 0 <= m < |leaves| && leaf == leaves[m] && proof == InclusionPath(sha, leaves, m)
  {
    if InclusionAccepted(sha, leaf, m, |leaves|, proof, Root(sha, leaves)) {
      InclusionSound(sha, inputs, leaves, leaf, m, proof);
    } else if 0 <= m < |leaves| {
      InclusionComplete(sha, leaves, m);
    }
  }
}
