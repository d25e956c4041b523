/**
 What the witness is for: two histories shown to two auditors, both verifying, both under
 heads that one witness co-signed, cannot disagree on what both cover.
 */
module SplitView {
  import opened Hashing
  import opened Text
  import opened Merkle
  import opened Canonical
  import opened Verifier
  import W = Witness

  /** A chain that verifies, shown with one of its heads. */
  datatype View = View(key: Bytes, records: seq<Record>, cps: seq<W.Checkpoint>, j: nat)

  ghost predicate Accepted(lib: Library, pub: nat, v: View) {
    Intact(lib, v.key, pub, v.records, v.cps) && v.j < |v.cps|
  }

  function Head(v: View): W.Sth
    requires v.j < |v.cps|
  {
    v.cps[v.j].sth
  }

  /** `inputs` holds what is hashed to check the first n records of a view and the tree over them. */
  ghost predicate Covered(lib: Library, inputs: set<Bytes>, v: View, n: nat)
    requires n <= |v.records|
  {
    && CoversRecords(inputs, lib, v.records, n) && AllShort(lib, v.records, n)
    && CoversTree(inputs, lib.sha, Hashes(v.records[..n]), 0, n)
  }

  /** The leaves a witness saw under a head are the hashes of the records the head verifies with. */
  lemma LeavesAreRecords(lib: Library, inputs: set<Bytes>, pub: nat, v: View, n: nat, leaves: seq<Bytes>)
    requires CollisionFree(lib.sha, inputs) && Accepted(lib, pub, v) && W.HeadOf(lib.sha, Head(v), leaves)
    requires n == |leaves| <= |v.records| && Covered(lib, inputs, v, n) && CoversTree(inputs, lib.sha, leaves, 0, n)
    ensures Hashes(v.records[..n]) == leaves
  {
    assert CheckpointIntact(lib, pub, v.records, v.cps, v.j);
    var hashes := Hashes(v.records[..n]);
    RootLength(lib.sha, leaves, 0, n);
    assert Head(v).merkleRoot != [];
    HexInjective(Root(lib.sha, leaves), Root(lib.sha, hashes));
    RootInjective(lib.sha, inputs, leaves, hashes, 0, n);
  }

  lemma HeadFromHashes(a: seq<Record>, b: seq<Record>, m: nat)
    requires m <= |a| && m <= |b| && Hashes(a[..m]) == Hashes(b[..m])
    ensures HeadBefore(a, m) == HeadBefore(b, m)
  {
    if m > 0 {
      assert Hashes(a[..m])[m - 1] == a[m - 1].recordHash && Hashes(b[..m])[m - 1] == b[m - 1].recordHash;
    }
  }

  lemma HashesOfFront(recs: seq<Record>, m: nat, n: nat)
    requires m <= n <= |recs|
    ensures Hashes(recs[..m]) == Hashes(recs[..n])[..m]
  {
    forall i | 0 <= i < m ensures Hashes(recs[..m])[i] == Hashes(recs[..n])[i] {
      assert recs[..m][i] == recs[..n][i];
    }
  }

  /** Of two trees co-signed in one run the smaller is a prefix of the larger, whichever came first. */
  lemma CoSignedNested(sha: Sha, inputs: set<Bytes>, run: seq<W.Event>, trees: seq<seq<Bytes>>, i: nat, i': nat)
    requires CollisionFree(sha, inputs) && W.RealHeads(sha, run, trees) && W.CoversRun(inputs, sha, run, trees)
    requires W.Forward(sha, run, trees) && W.RestartsExtend(sha, run, trees)
    requires i < |run| && i' < |run| && W.AcceptedAt(sha, run, i) && W.AcceptedAt(sha, run, i')
    requires |trees[i]| <= |trees[i']|
    ensures trees[i] <= trees[i']
  {
    if i < i' {
      W.WitnessedPrefixChain(sha, inputs, run, trees, i, i');
    } else if i' < i {
      W.WitnessedPrefixChain(sha, inputs, run, trees, i', i);
    }
  }

  /** Nested leaves are hashes of the same records. */
  lemma NestedAgree(lib: Library, inputs: set<Bytes>, a: View, b: View, small: seq<Bytes>, large: seq<Bytes>,
                    m: nat, n: nat, k: nat)
    requires CollisionFree(lib.sha, inputs)
    requires RecordsIntact(lib, a.key, a.records) && RecordsIntact(lib, b.key, b.records)
    requires k < m <= n && m <= |a.records| && n <= |b.records|
    requires Covered(lib, inputs, a, m) && Covered(lib, inputs, b, n)
    requires Hashes(a.records[..m]) == small && Hashes(b.records[..n]) == large && small <= large
    ensures SameRecord(lib, a.records[k], b.records[k])
  {
    HashesOfFront(b.records, m, n);
    HeadFromHashes(a.records, b.records, m);
    HeadFixesRecord(lib, inputs, a.key, b.key, a.records, b.records, m, k);
  }

  /**
   No split view: if two views verify and one witness co-signed the head of each, in one run, then the first
   records of both, up to the smaller head, agree on every rendered field and on the chain.
   */
  lemma NoSplitView(lib: Library, inputs: set<Bytes>, pub: nat, a: View, b: View,
                    run: seq<W.Event>, trees: seq<seq<Bytes>>, i: nat, i': nat, m: nat, n: nat, k: nat)
    requires CollisionFree(lib.sha, inputs) && Accepted(lib, pub, a) && Accepted(lib, pub, b)
    requires W.RealHeads(lib.sha, run, trees) && W.CoversRun(inputs, lib.sha, run, trees)
    requires W.Forward(lib.sha, run, trees) && W.RestartsExtend(lib.sha, run, trees)
    requires i < |run| && i' < |run| && W.AcceptedAt(lib.sha, run, i) && W.AcceptedAt(lib.sha, run, i')
    requires run[i].sth == Head(a) && run[i'].sth == Head(b) && Head(a).treeSize == m <= n == Head(b).treeSize
    requires m <= |a.records| && n <= |b.records| && Covered(lib, inputs, a, m) && Covered(lib, inputs, b, n)
    requires CoversTree(inputs, lib.sha, trees[i], 0, |trees[i]|)
    requires CoversTree(inputs, lib.sha, trees[i'], 0, |trees[i']|)
    requires k < m
    ensures SameRecord(lib, a.records[k], b.records[k])
  {
    LeavesAreRecords(lib, inputs, pub, a, m, trees[i]);
    LeavesAreRecords(lib, inputs, pub, b, n, trees[i']);
    CoSignedNested(lib.sha, inputs, run, trees, i, i');
    NestedAgree(lib, inputs, a, b, trees[i], trees[i'], m, n, k);
  }
}
