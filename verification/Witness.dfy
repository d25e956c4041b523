/**
 Signed tree heads and the witness that co-signs them (internal/audit/witness.go;
 the head itself is declared in internal/audit/chain.go).

 Ed25519 is ideal: a signature is the pair of key and signed head, so it verifies
 under exactly that key and for exactly that head.
 */
module Witness {
  import opened Hashing
  import opened Text
  import opened Merkle
  import opened MerkleConsistency

  /** The signed part of a checkpoint; "" is the empty byte string, no signature is `NoSig`. */
  datatype Sth = Sth(nodeID: Bytes, treeSize: U64, root: Bytes, merkleRoot: Bytes, prevCP: Sig)
  datatype Sig = NoSig | Ed25519(key: nat, sth: Sth)
  datatype Checkpoint = Checkpoint(sth: Sth, sig: Sig, witnessSig: Sig)

  predicate Signed(key: nat, sth: Sth, sig: Sig) {
    sig == Ed25519(key, sth)
  }

  datatype Refusal = Rewrite | Regress | Fork
  datatype Answer = CoSigned(sig: Sig) | Refused(why: Refusal)

  // ---------------------------------------------------------------- the witness as a state machine

  datatype State = State(seenRoot: map<U64, Bytes>, maxSize: U64, lastSize: U64, lastMerkle: Bytes)

  function Fresh(): State {
    State(map[], 0, 0, [])
  }

  predicate ProofDemanded(st: State, sth: Sth) {
    0 < st.lastSize < sth.treeSize && st.lastMerkle != [] && sth.merkleRoot != []
  }

  /** The new Merkle root provably extends the last one co-signed. */
  ghost predicate Extends(sha: Sha, st: State, sth: Sth, proof: seq<Bytes>) {
    && Unhex(st.lastMerkle).Some? && Unhex(sth.merkleRoot).Some?
    && ConsistencyAccepted(sha, AsInt64(st.lastSize), AsInt64(sth.treeSize), proof,
                           Unhex(st.lastMerkle).value, Unhex(sth.merkleRoot).value)
  }

  ghost predicate Accepts(sha: Sha, st: State, sth: Sth, proof: seq<Bytes>) {
    && (if sth.treeSize in st.seenRoot then st.seenRoot[sth.treeSize] == sth.root else sth.treeSize > st.maxSize)
    && (ProofDemanded(st, sth) ==> Extends(sha, st, sth, proof))
  }

  function Remember(st: State, sth: Sth): State {
    State(st.seenRoot[sth.treeSize := sth.root],
          if sth.treeSize > st.maxSize then sth.treeSize else st.maxSize,
          sth.treeSize, sth.merkleRoot)
  }

  function Restored(st: State, lastSize: U64, lastMerkle: Bytes, lastRoot: Bytes): State {
    State(if lastRoot != [] then st.seenRoot[lastSize := lastRoot] else st.seenRoot,
          if lastSize > st.maxSize then lastSize else st.maxSize,
          lastSize, lastMerkle)
  }

  class Witness {
    const key: nat
    var seenRoot: map<U64, Bytes>
    var maxSize: U64
    var lastSize: U64
    var lastMerkle: Bytes

    function View(): State
      reads this
    {
      State(seenRoot, maxSize, lastSize, lastMerkle)
    }

    constructor (seed: nat)
      ensures key == seed && View() == Fresh()
    {
      key := seed;
      seenRoot, maxSize, lastSize, lastMerkle := map[], 0, 0, [];
    }

    method Restore(size: U64, merkle: Bytes, root: Bytes)
      modifies this
      ensures View() == Restored(old(View()), size, merkle, root)
    {
      lastSize, lastMerkle := size, merkle;
      if size > maxSize {
        maxSize := size;
      }
      if root != [] {
        seenRoot := seenRoot[size := root];
      }
    }

    /** Co-signs exactly the acceptable heads; a refusal names its reason and changes nothing. */
    method CounterSign(sha: Sha, sth: Sth, proof: seq<Bytes>) returns (answer: Answer)
      modifies this
      ensures answer.CoSigned? <==> Accepts(sha, old(View()), sth, proof)
      ensures answer.CoSigned? ==> Signed(key, sth, answer.sig) && View() == Remember(old(View()), sth)
      ensures answer.Refused? ==> View() == old(View())
      ensures answer == Refused(Rewrite) <==>
        sth.treeSize in old(seenRoot) && old(seenRoot)[sth.treeSize] != sth.root
      ensures answer == Refused(Regress) <==> sth.treeSize !in old(seenRoot) && sth.treeSize <= old(maxSize)
    {
      if sth.treeSize in seenRoot {
        if seenRoot[sth.treeSize] != sth.root {
          return Refused(Rewrite);
        }
      } else if sth.treeSize <= maxSize {
        return Refused(Regress);
      }
      if lastSize > 0 && lastSize < sth.treeSize && lastMerkle != [] && sth.merkleRoot != [] {
        var oldRoot, newRoot := Unhex(lastMerkle), Unhex(sth.merkleRoot);
        if oldRoot.None? || newRoot.None? {
          return Refused(Fork);
        }
        var ok := VerifyConsistency(sha, AsInt64(lastSize), AsInt64(sth.treeSize), proof, oldRoot.value, newRoot.value);
        if !ok {
          return Refused(Fork);
        }
      }
      seenRoot := seenRoot[sth.treeSize := sth.root];
      if sth.treeSize > maxSize {
        maxSize := sth.treeSize;
      }
      lastSize, lastMerkle := sth.treeSize, sth.merkleRoot;
      answer := CoSigned(Ed25519(key, sth));
    }
  }

  // ---------------------------------------------------------------- whole runs

  /** A head is presented with a proof, or the process restarts and restores the head it finds in the sidecar. */
  datatype Event = Present(sth: Sth, proof: seq<Bytes>) | Restart(found: Option<Sth>)

  function Booted(found: Option<Sth>): State {
    if found.None? then Fresh()
    else Restored(Fresh(), found.value.treeSize, found.value.merkleRoot, found.value.root)
  }

  ghost function Step(sha: Sha, st: State, e: Event): State {
    match e
    case Present(sth, proof) => if Accepts(sha, st, sth, proof) then Remember(st, sth) else st
    case Restart(found) => Booted(found)
  }

  ghost function After(sha: Sha, run: seq<Event>, i: nat): State
    requires i <= |run|
  {
    if i == 0 then Fresh() else Step(sha, After(sha, run, i - 1), run[i - 1])
  }

  lemma AfterOne(sha: Sha, run: seq<Event>, l: nat, k: nat)
    requires k == l + 1 <= |run|
    ensures After(sha, run, k) == Step(sha, After(sha, run, l), run[l])
  {
  }

  ghost predicate AcceptedAt(sha: Sha, run: seq<Event>, i: nat)
    requires i < |run|
  {
    run[i].Present? && Accepts(sha, After(sha, run, i), run[i].sth, run[i].proof)
  }

  /** The end of the sidecar: the log writes every head it presents, co-signed or refused. */
  function LastPresented(run: seq<Event>, k: nat): Option<Sth>
    requires k <= |run|
  {
    if k == 0 then None else if run[k - 1].Present? then Some(run[k - 1].sth) else LastPresented(run, k - 1)
  }

  predicate FromSidecar(run: seq<Event>) {
    forall k :: 0 <= k < |run| && run[k].Restart? ==> run[k].found == LastPresented(run, k)
  }

  /** A restored head keeps this co-signed size shut: it is larger, or it is the same head. */
  predicate Pins(found: Option<Sth>, sth: Sth) {
    if found.None? then sth.treeSize == 0
    else
      && sth.treeSize <= found.value.treeSize
      && (sth.treeSize == found.value.treeSize && found.value.root != [] ==> sth.root == found.value.root)
  }

  ghost predicate RestartsPin(sha: Sha, run: seq<Event>) {
    forall i, k :: 0 <= i < k < |run| && AcceptedAt(sha, run, i) && run[k].Restart? ==> Pins(run[k].found, run[i].sth)
  }

  /** Once co-signed, a tree size can never be co-signed with another root. */
  ghost predicate Bound(st: State, sth: Sth) {
    && sth.treeSize <= st.maxSize
    && (sth.treeSize in st.seenRoot ==> st.seenRoot[sth.treeSize] == sth.root)
  }

  lemma StepKeepsBound(sha: Sha, st: State, e: Event, sth: Sth)
    requires Bound(st, sth) && e.Present?
    ensures Bound(Step(sha, st, e), sth)
  {
    if Accepts(sha, st, e.sth, e.proof) {
      assert e.sth.treeSize == sth.treeSize ==> sth.treeSize in st.seenRoot;
    }
  }

  lemma BootBinds(found: Option<Sth>, sth: Sth)
    ensures Bound(Booted(found), sth) <==> Pins(found, sth)
  {
  }

  lemma StepBinds(sha: Sha, st: State, e: Event)
    requires e.Present? && Accepts(sha, st, e.sth, e.proof)
    ensures Bound(Step(sha, st, e), e.sth)
  {
  }

  lemma {:induction false} BoundPersists(sha: Sha, run: seq<Event>, i: nat, k: nat)
    requires i < k <= |run| && AcceptedAt(sha, run, i) && RestartsPin(sha, run)
    ensures Bound(After(sha, run, k), run[i].sth)
    decreases k
  {
    var l := k - 1;
    AfterOne(sha, run, l, k);
    if l == i {
      StepBinds(sha, After(sha, run, i), run[i]);
    } else {
      BoundPersists(sha, run, i, l);
      if run[l].Restart? {
        BootBinds(run[l].found, run[i].sth);
      } else {
        StepKeepsBound(sha, After(sha, run, l), run[l], run[i].sth);
      }
    }
  }

  /** In every run, one tree size is never co-signed with two different chained roots. */
  lemma NoEquivocation(sha: Sha, run: seq<Event>, i: nat, j: nat)
    requires i < j < |run| && RestartsPin(sha, run)
    requires AcceptedAt(sha, run, i) && AcceptedAt(sha, run, j)
    requires run[i].sth.treeSize == run[j].sth.treeSize
    ensures run[i].sth.root == run[j].sth.root
  {
    BoundPersists(sha, run, i, j);
  }

  ghost predicate HeadOf(sha: Sha, sth: Sth, leaves: seq<Bytes>) {
    sth.treeSize == |leaves| && sth.merkleRoot == Hex(Root(sha, leaves))
  }

  /** Some head with a real Merkle root is acceptable that gives this size another chained root. */
  ghost predicate Contradictable(sha: Sha, st: State, sth: Sth) {
    exists other: Sth, leaves: seq<Bytes>, proof: seq<Bytes> :: Contradicts(sha, st, sth, other, leaves, proof)
  }

  ghost predicate Contradicts(sha: Sha, st: State, sth: Sth, other: Sth, leaves: seq<Bytes>, proof: seq<Bytes>) {
    && other.treeSize == sth.treeSize && other.root != sth.root && HeadOf(sha, other, leaves)
    && Accepts(sha, st, other, proof)
  }

  /** In this state some size co-signed before event k can be co-signed again with another root. */
  ghost predicate MayEquivocate(sha: Sha, run: seq<Event>, k: nat, st: State)
    requires k <= |run|
  {
    exists i: nat :: i < k && AcceptedAt(sha, run, i) && Contradictable(sha, st, run[i].sth)
  }

  ghost predicate AllPinned(sha: Sha, run: seq<Event>, k: nat, found: Option<Sth>)
    requires k <= |run|
  {
    forall i: nat :: i < k && AcceptedAt(sha, run, i) ==> Pins(found, run[i].sth)
  }

  /** What a restart found: nothing, or the real head of a tree. */
  ghost predicate FoundTree(sha: Sha, found: Option<Sth>, tree: seq<Bytes>) {
    if found.None? then tree == [] else HeadOf(sha, found.value, tree) && |tree| < TWO63
  }

  /** A restart opens the door to equivocation if and only if what it finds fails to pin a co-signed head. */
  lemma RestartExactly(sha: Sha, run: seq<Event>, k: nat, m: nat, tree: seq<Bytes>)
    requires m == k + 1 <= |run| && run[k].Restart? && FoundTree(sha, run[k].found, tree)
    requires forall i :: 0 <= i < k && AcceptedAt(sha, run, i) ==> run[i].sth.treeSize < TWO63
    ensures MayEquivocate(sha, run, k, After(sha, run, m)) <==> !AllPinned(sha, run, k, run[k].found)
  {
    AfterOne(sha, run, k, m);
    PinnedExactly(sha, run, k, run[k].found, tree);
  }

  lemma PinnedExactly(sha: Sha, run: seq<Event>, k: nat, found: Option<Sth>, tree: seq<Bytes>)
    requires k <= |run| && FoundTree(sha, found, tree)
    requires forall i :: 0 <= i < k && AcceptedAt(sha, run, i) ==> run[i].sth.treeSize < TWO63
    ensures MayEquivocate(sha, run, k, Booted(found)) <==> !AllPinned(sha, run, k, found)
  {
    if i: nat :| i < k && AcceptedAt(sha, run, i) && !Pins(found, run[i].sth) {
      PinExactly(sha, found, tree, run[i].sth);
    } else {
      forall i: nat | i < k && AcceptedAt(sha, run, i) ensures !Contradictable(sha, Booted(found), run[i].sth) {
        PinExactly(sha, found, tree, run[i].sth);
      }
    }
  }

  lemma PinExactly(sha: Sha, found: Option<Sth>, tree: seq<Bytes>, sth: Sth)
    requires FoundTree(sha, found, tree) && sth.treeSize < TWO63
    ensures Contradictable(sha, Booted(found), sth) <==> !Pins(found, sth)
  {
    BootBinds(found, sth);
    var st := Booted(found);
    if !Pins(found, sth) {
      if sth.treeSize == |tree| {
        assert Contradicts(sha, st, sth, found.value, tree, []);
      } else {
        var leaves := Grown(tree, sth.treeSize);
        var other := HeadFor(sha, leaves, sth.root + [0]);
        var proof := if tree == [] then [] else ConsistencyPath(sha, leaves, |tree|);
        LargerHeadAccepted(sha, found, tree, other, leaves, proof);
        assert Contradicts(sha, st, sth, other, leaves, proof);
      }
    }
  }

  /** The tree with empty leaves added up to a size. */
  function Grown(tree: seq<Bytes>, n: nat): (grown: seq<Bytes>)
    requires |tree| <= n
    ensures |grown| == n && grown[..|tree|] == tree
    decreases n - |tree|
  {
    if |tree| == n then tree else Grown(tree + [[]], n)
  }

  ghost function HeadFor(sha: Sha, leaves: seq<Bytes>, root: Bytes): Sth
    requires |leaves| < TWO63
  {
    Sth([], |leaves|, root, Hex(Root(sha, leaves)), NoSig)
  }

  /** A restored witness accepts every larger head that extends what it was restored from. */
  lemma LargerHeadAccepted(sha: Sha, found: Option<Sth>, tree: seq<Bytes>, other: Sth, leaves: seq<Bytes>,
                           proof: seq<Bytes>)
    requires FoundTree(sha, found, tree) && HeadOf(sha, other, leaves) && |tree| < |leaves| < TWO63
    requires leaves[..|tree|] == tree && (tree != [] ==> proof == ConsistencyPath(sha, leaves, |tree|))
    ensures Accepts(sha, Booted(found), other, proof)
  {
    if tree != [] {
      HexRoundTrip(Root(sha, tree));
      HexRoundTrip(Root(sha, leaves));
      ConsistencyComplete(sha, leaves, |tree|);
    }
  }

  /** A head, a rewrite of it that is refused, a restart from the sidecar, and the rewrite again. */
  ghost function RewriteRun(sha: Sha, x: Bytes, y: Bytes): seq<Event> {
    var a, b := HeadFor(sha, [x], [1]), HeadFor(sha, [y], [2]);
    [Present(a, []), Present(b, []), Restart(Some(b)), Present(b, [])]
  }

  /** Restarting from a refused head: the code then co-signs one size with two roots. */
  lemma RefusedHeadRestored(sha: Sha, x: Bytes, y: Bytes)
    ensures var run := RewriteRun(sha, x, y);
      && FromSidecar(run) && !RestartsPin(sha, run)
      && AcceptedAt(sha, run, 0) && !AcceptedAt(sha, run, 1) && AcceptedAt(sha, run, 3)
      && run[0].sth.treeSize == run[3].sth.treeSize && run[0].sth.root != run[3].sth.root
  {
    var run := RewriteRun(sha, x, y);
    AfterOne(sha, run, 0, 1);
    assert After(sha, run, 1) == Remember(Fresh(), run[0].sth);
    AfterOne(sha, run, 1, 2);
    AfterOne(sha, run, 2, 3);
    assert After(sha, run, 3) == Booted(Some(run[1].sth));
    assert LastPresented(run, 2) == Some(run[1].sth);
    assert run[2].Restart? && AcceptedAt(sha, run, 0) && !Pins(run[2].found, run[0].sth);
  }

  // ---------------------------------------------------------------- the prefix chain

  /** The last head co-signed is the real head of `leaves`, and the largest. */
  ghost predicate TipIs(sha: Sha, st: State, leaves: seq<Bytes>) {
    0 < |leaves| == st.lastSize == st.maxSize && st.lastMerkle == Hex(Root(sha, leaves))
  }

  /** `inputs` holds what is hashed to build both trees and to check one against the other. */
  ghost predicate CoversExtension(inputs: set<Bytes>, sha: Sha, a: seq<Bytes>, b: seq<Bytes>, proof: seq<Bytes>) {
    && CoversTree(inputs, sha, a, 0, |a|) && CoversTree(inputs, sha, b, 0, |b|)
    && CoversConsistency(inputs, sha, |a|, |b|, proof, Root(sha, a))
  }

  /**
   A witness whose tip is the real head of `a`, shown a larger real head of `b`,
   co-signs exactly when `a` is a prefix of `b` and the proof is the generated one.
   */
  lemma CoSignsExactlyExtensions(sha: Sha, inputs: set<Bytes>, st: State, sth: Sth, proof: seq<Bytes>,
                                 a: seq<Bytes>, b: seq<Bytes>)
    requires CollisionFree(sha, inputs) && CoversExtension(inputs, sha, a, b, proof)
    requires TipIs(sha, st, a) && HeadOf(sha, sth, b) && |a| < |b| < TWO63 && |b| !in st.seenRoot
    ensures Accepts(sha, st, sth, proof) <==> a <= b && proof == ConsistencyPath(sha, b, |a|)
  {
    HexRoundTrip(Root(sha, a));
    HexRoundTrip(Root(sha, b));
    RootLength(sha, a, 0, |a|);
    RootLength(sha, b, 0, |b|);
    assert ProofDemanded(st, sth);
    ConsistencyExact(sha, inputs, a, b, proof);
  }

  /** The witness stands at trees[i] after event i: it co-signed that head, or was restored from it. */
  ghost predicate StandsAt(sha: Sha, run: seq<Event>, i: nat)
    requires i < |run|
  {
    run[i].Restart? || AcceptedAt(sha, run, i)
  }

  /** Heads presented and heads found are real heads of the given leaf lists. */
  ghost predicate RealHeads(sha: Sha, run: seq<Event>, trees: seq<seq<Bytes>>) {
    && |trees| == |run|
    && (forall i :: 0 <= i < |run| && run[i].Present? ==> HeadOf(sha, run[i].sth, trees[i]) && |trees[i]| < TWO63)
    && (forall i :: 0 <= i < |run| && run[i].Restart? ==> FoundTree(sha, run[i].found, trees[i]))
  }

  /** Co-signed sizes never go back, and a size that comes again comes with its tree. */
  ghost predicate Forward(sha: Sha, run: seq<Event>, trees: seq<seq<Bytes>>)
    requires |trees| == |run|
  {
    forall i, j :: 0 <= i < j < |run| && StandsAt(sha, run, i) && AcceptedAt(sha, run, j) ==>
      |trees[i]| <= |trees[j]| && (|trees[i]| == |trees[j]| ==> trees[i] == trees[j])
  }

  /** Every restart finds a head that extends all heads co-signed before it. */
  ghost predicate RestartsExtend(sha: Sha, run: seq<Event>, trees: seq<seq<Bytes>>)
    requires |trees| == |run|
  {
    forall i, k :: 0 <= i < k < |run| && AcceptedAt(sha, run, i) && run[k].Restart? ==> trees[i] <= trees[k]
  }

  ghost predicate CoversRun(inputs: set<Bytes>, sha: Sha, run: seq<Event>, trees: seq<seq<Bytes>>)
    requires |trees| == |run|
  {
    forall i, j :: 0 <= i < j < |run| && run[j].Present? ==>
      CoversExtension(inputs, sha, trees[i], trees[j], run[j].proof)
  }

  /** The witness stands at `leaves` and has seen no larger head. */
  ghost predicate Anchored(sha: Sha, st: State, leaves: seq<Bytes>) {
    && |leaves| == st.lastSize == st.maxSize && (leaves != [] ==> st.lastMerkle == Hex(Root(sha, leaves)))
    && forall n :: n in st.seenRoot ==> n <= |leaves|
  }

  /** The tree of the event the witness stands at; -1 before the first. */
  function Standing(trees: seq<seq<Bytes>>, tip: int): seq<Bytes>
    requires -1 <= tip < |trees|
  {
    if tip == -1 then [] else trees[tip]
  }

  /** After k events the witness is anchored at one tree, and every co-signed tree is its prefix. */
  ghost predicate ChainedUpTo(sha: Sha, run: seq<Event>, trees: seq<seq<Bytes>>, k: nat, tip: int)
    requires k <= |run| == |trees| && -1 <= tip < k
  {
    && (tip >= 0 ==> StandsAt(sha, run, tip))
    && Anchored(sha, After(sha, run, k), Standing(trees, tip))
    && forall i :: 0 <= i < k && AcceptedAt(sha, run, i) ==> trees[i] <= Standing(trees, tip)
  }

  /** What is co-signed next extends what the witness stands at. */
  lemma StepChains(sha: Sha, inputs: set<Bytes>, run: seq<Event>, trees: seq<seq<Bytes>>, k: nat, tip: int)
    requires CollisionFree(sha, inputs) && RealHeads(sha, run, trees) && CoversRun(inputs, sha, run, trees)
    requires Forward(sha, run, trees) && k < |run| && -1 <= tip < k && ChainedUpTo(sha, run, trees, k, tip)
    requires AcceptedAt(sha, run, k)
    ensures Standing(trees, tip) <= trees[k]
  {
    if tip >= 0 && trees[tip] != [] && |trees[tip]| < |trees[k]| {
      CoSignsExactlyExtensions(sha, inputs, After(sha, run, k), run[k].sth, run[k].proof, trees[tip], trees[k]);
    }
  }

  lemma ChainGrows(sha: Sha, run: seq<Event>, trees: seq<seq<Bytes>>, k: nat, m: nat, tip: int)
    requires m == k + 1 <= |run| == |trees| && -1 <= tip < k && ChainedUpTo(sha, run, trees, k, tip)
    requires AcceptedAt(sha, run, k) && HeadOf(sha, run[k].sth, trees[k]) && Standing(trees, tip) <= trees[k]
    ensures ChainedUpTo(sha, run, trees, m, k)
  {
    AfterOne(sha, run, k, m);
    RememberAnchors(sha, After(sha, run, k), run[k].sth, Standing(trees, tip), trees[k]);
  }

  lemma RememberAnchors(sha: Sha, st: State, sth: Sth, a: seq<Bytes>, b: seq<Bytes>)
    requires Anchored(sha, st, a) && HeadOf(sha, sth, b) && |a| <= |b|
    ensures Anchored(sha, Remember(st, sth), b)
  {
  }

  lemma ChainRestarts(sha: Sha, run: seq<Event>, trees: seq<seq<Bytes>>, k: nat, m: nat)
    requires m == k + 1 <= |run| == |trees| && RealHeads(sha, run, trees) && RestartsExtend(sha, run, trees)
    requires run[k].Restart?
    ensures ChainedUpTo(sha, run, trees, m, k)
  {
    AfterOne(sha, run, k, m);
    BootAnchors(sha, run[k].found, trees[k]);
    AcceptedExtended(sha, run, trees, k, m);
  }

  lemma AcceptedExtended(sha: Sha, run: seq<Event>, trees: seq<seq<Bytes>>, k: nat, m: nat)
    requires m == k + 1 <= |run| == |trees| && RestartsExtend(sha, run, trees) && run[k].Restart?
    ensures forall i :: 0 <= i < m && AcceptedAt(sha, run, i) ==> trees[i] <= trees[k]
  {
    forall i | 0 <= i < m && AcceptedAt(sha, run, i) ensures trees[i] <= trees[k] {
      assert i != k;
    }
  }

  lemma BootAnchors(sha: Sha, found: Option<Sth>, tree: seq<Bytes>)
    requires FoundTree(sha, found, tree)
    ensures Anchored(sha, Booted(found), tree)
  {
  }

  lemma {:induction false} PrefixChainUpTo(
    sha: Sha, inputs: set<Bytes>, run: seq<Event>, trees: seq<seq<Bytes>>, k: nat) returns (tip: int)
    requires CollisionFree(sha, inputs) && RealHeads(sha, run, trees) && CoversRun(inputs, sha, run, trees)
    requires Forward(sha, run, trees) && RestartsExtend(sha, run, trees) && k <= |run|
    ensures -1 <= tip < k && ChainedUpTo(sha, run, trees, k, tip)
  {
    if k == 0 {
      tip := -1;
      assert ChainedUpTo(sha, run, trees, 0, -1);
    } else {
      var l := k - 1;
      tip := PrefixChainUpTo(sha, inputs, run, trees, l);
      if AcceptedAt(sha, run, l) {
        StepChains(sha, inputs, run, trees, l, tip);
        ChainGrows(sha, run, trees, l, k, tip);
        tip := l;
      } else if run[l].Restart? {
        ChainRestarts(sha, run, trees, l, k);
        tip := l;
      } else {
        ChainKept(sha, run, trees, l, k, tip);
      }
    }
  }

  lemma ChainKept(sha: Sha, run: seq<Event>, trees: seq<seq<Bytes>>, k: nat, m: nat, tip: int)
    requires m == k + 1 <= |run| == |trees| && -1 <= tip < k && ChainedUpTo(sha, run, trees, k, tip)
    requires run[k].Present? && !AcceptedAt(sha, run, k)
    ensures ChainedUpTo(sha, run, trees, m, tip)
  {
    AfterOne(sha, run, k, m);
  }

  /** All co-signed heads form a prefix chain: no history is ever rewritten under a witness. */
  lemma WitnessedPrefixChain(sha: Sha, inputs: set<Bytes>, run: seq<Event>, trees: seq<seq<Bytes>>, i: nat, j: nat)
    requires CollisionFree(sha, inputs) && RealHeads(sha, run, trees) && CoversRun(inputs, sha, run, trees)
    requires Forward(sha, run, trees) && RestartsExtend(sha, run, trees)
    requires i < j < |run| && AcceptedAt(sha, run, i) && AcceptedAt(sha, run, j)
    ensures trees[i] <= trees[j]
  {
    var tip := PrefixChainUpTo(sha, inputs, run, trees, j);
    StepChains(sha, inputs, run, trees, j, tip);
  }

  /** Some head of a new size is acceptable that leaves tree `a` behind. */
  ghost predicate MayLeave(sha: Sha, inputs: set<Bytes>, st: State, tree: seq<Bytes>, a: seq<Bytes>) {
    exists sth: Sth, b: seq<Bytes>, proof: seq<Bytes> :: Leaves(sha, inputs, st, tree, sth, b, proof, a)
  }

  /** Among the heads checked without a collision: what is hashed lies in `inputs`, or the proof is a generated one. */
  ghost predicate Leaves(sha: Sha, inputs: set<Bytes>, st: State, tree: seq<Bytes>, sth: Sth, b: seq<Bytes>,
                         proof: seq<Bytes>, a: seq<Bytes>) {
    && HeadOf(sha, sth, b) && st.maxSize < |b| < TWO63 && Accepts(sha, st, sth, proof) && !(a <= b)
    && (CoversExtension(inputs, sha, tree, b, proof) || Generated(sha, tree, b, proof))
  }

  ghost predicate Generated(sha: Sha, tree: seq<Bytes>, b: seq<Bytes>, proof: seq<Bytes>) {
    tree < b && (tree != [] ==> proof == ConsistencyPath(sha, b, |tree|))
  }

  /** The last head co-signed or restored is that of `tree`; larger ones may have been seen before it. */
  ghost predicate LastIs(sha: Sha, st: State, tree: seq<Bytes>) {
    && |tree| == st.lastSize <= st.maxSize && (tree != [] ==> st.lastMerkle == Hex(Root(sha, tree)))
    && forall n :: n in st.seenRoot ==> n <= st.maxSize
  }

  /** A tree of n leaves that extends `tree` and does not lead back to `a`. */
  function Astray(tree: seq<Bytes>, a: seq<Bytes>, n: nat): (b: seq<Bytes>)
    requires |tree| < n
    ensures tree < b && b[..|tree|] == tree && |b| == n
    ensures |tree| < |a| ==> |b[|tree|]| == |a[|tree|]| + 1
  {
    var next := tree + [if |tree| < |a| then a[|tree|] + [0] else []];
    var b := Grown(next, n);
    assert b[..|tree|] == b[..|next|][..|tree|] && b[|tree|] == b[..|next|][|tree|];
    b
  }

  lemma AstrayLeads(tree: seq<Bytes>, a: seq<Bytes>, n: nat)
    requires !(a <= tree) && |tree| < n
    ensures !(a <= Astray(tree, a, n))
  {
    var b := Astray(tree, a, n);
    assert |tree| < |a| && |a| <= |b| ==> b[|tree|] != a[|tree|];
    assert |a| <= |tree| ==> b[..|a|] == tree[..|a|];
  }

  /** Wherever the witness stands, what it co-signs next extends that tree. */
  lemma AcceptedExtends(sha: Sha, inputs: set<Bytes>, st: State, tree: seq<Bytes>, sth: Sth, b: seq<Bytes>,
                        proof: seq<Bytes>)
    requires CollisionFree(sha, inputs) && CoversExtension(inputs, sha, tree, b, proof)
    requires LastIs(sha, st, tree) && HeadOf(sha, sth, b) && st.maxSize < |b| < TWO63 && Accepts(sha, st, sth, proof)
    ensures tree <= b
  {
    if tree != [] {
      HexRoundTrip(Root(sha, tree));
      HexRoundTrip(Root(sha, b));
      RootLength(sha, tree, 0, |tree|);
      RootLength(sha, b, 0, |b|);
      assert ProofDemanded(st, sth);
      ConsistencyExact(sha, inputs, tree, b, proof);
    }
  }

  /** Wherever the witness stands, it can be led away from a tree if and only if it stands at no extension of it. */
  lemma LeaveExactly(sha: Sha, inputs: set<Bytes>, st: State, tree: seq<Bytes>, a: seq<Bytes>)
    requires CollisionFree(sha, inputs) && LastIs(sha, st, tree) && st.maxSize + 1 < TWO63
    ensures MayLeave(sha, inputs, st, tree, a) <==> !(a <= tree)
  {
    if !(a <= tree) {
      var b := Astray(tree, a, st.maxSize + 1);
      AstrayLeads(tree, a, st.maxSize + 1);
      var proof := if tree == [] then [] else ConsistencyPath(sha, b, |tree|);
      ExtensionAccepted(sha, st, tree, b, proof);
      assert Leaves(sha, inputs, st, tree, HeadFor(sha, b, [1]), b, proof, a);
    } else {
      forall sth: Sth, b: seq<Bytes>, proof: seq<Bytes> ensures !Leaves(sha, inputs, st, tree, sth, b, proof, a) {
        Stays(sha, inputs, st, tree, sth, b, proof, a);
      }
    }
  }

  lemma Stays(sha: Sha, inputs: set<Bytes>, st: State, tree: seq<Bytes>, sth: Sth, b: seq<Bytes>,
              proof: seq<Bytes>, a: seq<Bytes>)
    requires CollisionFree(sha, inputs) && LastIs(sha, st, tree) && a <= tree
    ensures !Leaves(sha, inputs, st, tree, sth, b, proof, a)
  {
    if HeadOf(sha, sth, b) && st.maxSize < |b| < TWO63 && Accepts(sha, st, sth, proof)
       && CoversExtension(inputs, sha, tree, b, proof) {
      AcceptedExtends(sha, inputs, st, tree, sth, b, proof);
    }
    assert tree <= b ==> a <= b;
  }

  lemma ExtensionAccepted(sha: Sha, st: State, tree: seq<Bytes>, b: seq<Bytes>, proof: seq<Bytes>)
    requires LastIs(sha, st, tree) && st.maxSize < |b| < TWO63 && |tree| < |b| && b[..|tree|] == tree
    requires tree != [] ==> proof == ConsistencyPath(sha, b, |tree|)
    ensures Accepts(sha, st, HeadFor(sha, b, [1]), proof)
  {
    if tree != [] {
      HexRoundTrip(Root(sha, tree));
      HexRoundTrip(Root(sha, b));
      ConsistencyComplete(sha, b, |tree|);
    }
  }

  /** After event k the next head co-signed may leave a tree co-signed before. */
  ghost predicate MayFork(sha: Sha, inputs: set<Bytes>, run: seq<Event>, trees: seq<seq<Bytes>>, k: nat, m: nat)
    requires k < m <= |run| == |trees|
  {
    exists i: nat :: i < k && AcceptedAt(sha, run, i) && MayLeave(sha, inputs, After(sha, run, m), trees[k], trees[i])
  }

  lemma {:induction false} SeenWithin(sha: Sha, run: seq<Event>, i: nat)
    requires i <= |run|
    ensures After(sha, run, i).lastSize <= After(sha, run, i).maxSize
    ensures forall n :: n in After(sha, run, i).seenRoot ==> n <= After(sha, run, i).maxSize
  {
    if i > 0 {
      SeenWithin(sha, run, i - 1);
      AfterOne(sha, run, i - 1, i);
    }
  }

  lemma StandsLast(sha: Sha, run: seq<Event>, trees: seq<seq<Bytes>>, k: nat, m: nat)
    requires m == k + 1 <= |run| && RealHeads(sha, run, trees) && StandsAt(sha, run, k)
    ensures LastIs(sha, After(sha, run, m), trees[k])
  {
    AfterOne(sha, run, k, m);
    SeenWithin(sha, run, m);
  }

  /**
   A restart, or a head co-signed again, opens the door to a fork if and only if its tree fails to extend
   one that was co-signed before.
   */
  lemma ForkExactly(sha: Sha, inputs: set<Bytes>, run: seq<Event>, trees: seq<seq<Bytes>>, k: nat, m: nat)
    requires m == k + 1 <= |run| && RealHeads(sha, run, trees) && StandsAt(sha, run, k)
    requires CollisionFree(sha, inputs) && After(sha, run, m).maxSize + 1 < TWO63
    ensures MayFork(sha, inputs, run, trees, k, m)
      <==> exists i: nat :: i < k && AcceptedAt(sha, run, i) && !(trees[i] <= trees[k])
  {
    StandsLast(sha, run, trees, k, m);
    forall i: nat | i < k && AcceptedAt(sha, run, i)
      ensures MayLeave(sha, inputs, After(sha, run, m), trees[k], trees[i]) <==> !(trees[i] <= trees[k])
    {
      LeaveExactly(sha, inputs, After(sha, run, m), trees[k], trees[i]);
    }
  }

  /** A head, a fork of it that is refused, a restart from the sidecar, and an extension of the fork. */
  ghost function ForkRun(sha: Sha, x: Bytes, y: Bytes, z: Bytes): seq<Event> {
    var fork := HeadFor(sha, [y, z], [2]);
    [Present(HeadFor(sha, [x], [1]), []), Present(fork, []), Restart(Some(fork)),
     Present(HeadFor(sha, [y, z, z], [3]), ConsistencyPath(sha, [y, z, z], 2))]
  }

  /** Restarting from a refused fork: the code then co-signs its extensions. */
  lemma RefusedForkRestored(sha: Sha, x: Bytes, y: Bytes, z: Bytes)
    requires Digests32(sha) && x != y
    ensures var run := ForkRun(sha, x, y, z);
      && FromSidecar(run) && RealHeads(sha, run, [[x], [y, z], [y, z], [y, z, z]])
      && AcceptedAt(sha, run, 0) && !AcceptedAt(sha, run, 1) && AcceptedAt(sha, run, 3)
      && !([x] <= [y, z, z])
  {
    var run := ForkRun(sha, x, y, z);
    AfterOne(sha, run, 0, 1);
    assert After(sha, run, 1) == Remember(Fresh(), run[0].sth);
    EmptyProofRefused(sha, After(sha, run, 1), x, y, z);
    AfterOne(sha, run, 1, 2);
    AfterOne(sha, run, 2, 3);
    assert LastPresented(run, 2) == Some(run[1].sth);
    assert [y, z, z][..2] == [y, z];
    LargerHeadAccepted(sha, run[2].found, [y, z], run[3].sth, [y, z, z], run[3].proof);
    assert [x][0] != [y, z, z][0];
  }

  lemma EmptyProofRefused(sha: Sha, st: State, x: Bytes, y: Bytes, z: Bytes)
    requires Digests32(sha) && TipIs(sha, st, [x])
    ensures !Accepts(sha, st, HeadFor(sha, [y, z], [2]), [])
  {
    RootLength(sha, [x], 0, 1);
    RootLength(sha, [y, z], 0, 2);
    HexRoundTrip(Root(sha, [x]));
    HexRoundTrip(Root(sha, [y, z]));
    PrefixRouteLeft(1, 2, 1);
    assert Walked(1, [], Root(sha, [x])) == [Root(sha, [x])];
  }
}
