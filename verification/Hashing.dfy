/**
 Byte strings and the hash function of the audit log.

 SHA-256 is a parameter: any function from byte strings to 32-byte digests. No
 injectivity is ever assumed of it; the soundness theorems instead require that
 no two different inputs among the finitely many that were actually hashed
 collide (`CollisionFree`).
 */
module Hashing {

  type Byte = x: int | 0 <= x < 256
  type Bytes = seq<Byte>

  /** A hash function, given by its graph. */
  datatype Sha = Sha(graph: imap<Bytes, Bytes>) {
    function Digest(x: Bytes): Bytes {
      if x in graph then graph[x] else []
    }
  }

  ghost predicate Digests32(sha: Sha) {
    forall x :: |sha.Digest(x)| == 32
  }

  function LeafInput(data: Bytes): Bytes {
    [0] + data
  }

  function NodeInput(left: Bytes, right: Bytes): Bytes {
    [1] + left + right
  }

  function LeafHash(sha: Sha, data: Bytes): Bytes {
    sha.Digest(LeafInput(data))
  }

  function NodeHash(sha: Sha, left: Bytes, right: Bytes): Bytes {
    sha.Digest(NodeInput(left, right))
  }

  ghost predicate Hashed(inputs: set<Bytes>, x: Bytes) {
    x in inputs
  }

  /** No two different members of `inputs` have the same hash. */
  ghost predicate CollisionFree(sha: Sha, inputs: set<Bytes>) {
    Digests32(sha) &&
    forall x, y {:trigger Hashed(inputs, x), Hashed(inputs, y)} ::
      Hashed(inputs, x) && Hashed(inputs, y) && sha.Digest(x) == sha.Digest(y) ==> x == y
  }

  /** A node hash determines both children as soon as one length is known. */
  lemma NodeHashInjective(sha: Sha, inputs: set<Bytes>, l: Bytes, r: Bytes, l': Bytes, r': Bytes)
    requires CollisionFree(sha, inputs)
    requires NodeInput(l, r) in inputs && NodeInput(l', r') in inputs
    requires NodeHash(sha, l, r) == NodeHash(sha, l', r')
    requires |l| == |l'| || |r| == |r'|
    ensures l == l' && r == r'
  {
    var x, x' := NodeInput(l, r), NodeInput(l', r');
    assert Hashed(inputs, x) && Hashed(inputs, x') && x == x';
    assert |x| == 1 + |l| + |r| && |x'| == 1 + |l'| + |r'|;
    assert l == x[1..1 + |l|] && r == x[1 + |l|..];
    assert l' == x'[1..1 + |l'|] && r' == x'[1 + |l'|..];
  }

  lemma LeafHashInjective(sha: Sha, inputs: set<Bytes>, d: Bytes, d': Bytes)
    requires CollisionFree(sha, inputs)
    requires LeafInput(d) in inputs && LeafInput(d') in inputs
    requires LeafHash(sha, d) == LeafHash(sha, d')
    ensures d == d'
  {
    assert Hashed(inputs, LeafInput(d)) && Hashed(inputs, LeafInput(d'));
    assert d == LeafInput(d)[1..] && d' == LeafInput(d')[1..];
  }

  /** The 0x00 and 0x01 prefixes keep leaf hashes and node hashes apart. */
  lemma LeafIsNotNode(sha: Sha, inputs: set<Bytes>, d: Bytes, l: Bytes, r: Bytes)
    requires CollisionFree(sha, inputs)
    requires LeafInput(d) in inputs && NodeInput(l, r) in inputs
    ensures LeafHash(sha, d) != NodeHash(sha, l, r)
  {
    assert Hashed(inputs, LeafInput(d)) && Hashed(inputs, NodeInput(l, r));
    assert LeafInput(d)[0] == 0 && NodeInput(l, r)[0] == 1;
  }
}
