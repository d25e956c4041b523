/** The offline verifier (internal/audit/verifier.go) and what its acceptance binds. */
module Verifier {
  import opened Hashing
  import opened Text
  import opened Merkle
  import opened Canonical
  import opened RecordBinding
  import opened Witness

  datatype Class =
    | ClassOK | HashBreak | HmacInvalid | SeqGap | LinkageBreak
    | CheckpointBad | WitnessBad | EmptyChain | HmacUnchecked

  datatype VerifyResult = VerifyResult(ok: bool, cls: Class, atSeq: U64)

  /** The chain head before record i. */
  function HeadBefore(records: seq<Record>, i: nat): Bytes
    requires i <= |records|
  {
    if i == 0 then [] else records[i - 1].recordHash
  }

  function Hashes(records: seq<Record>): (hs: seq<Bytes>)
    ensures |hs| == |records|
    ensures forall i :: 0 <= i < |records| ==> hs[i] == records[i].recordHash
  {
    if records == [] then [] else Hashes(records[..|records| - 1]) + [records[|records| - 1].recordHash]
  }

  /**
   A record is good at its place: it has the next number, names the chain head, carries the hash
   of its own content behind that head and, under a key, the MAC of that hash.
   */
  predicate Fits(lib: Library, r: Record, n: nat, prev: Bytes, hmacKey: Bytes) {
    && r.seqNo == n && r.prevHash == prev && r.recordHash == RecordHash(lib, r, prev)
    && (hmacKey != [] ==> r.hmac == Hex(lib.Hmac(hmacKey, r.recordHash)))
  }

  /** The class says which of the four is the first that does not hold. */
  predicate Fails(lib: Library, r: Record, n: nat, prev: Bytes, hmacKey: Bytes, cls: Class) {
    match cls
    case SeqGap => r.seqNo != n
    case LinkageBreak => r.seqNo == n && r.prevHash != prev
    case HashBreak => r.seqNo == n && r.prevHash == prev && r.recordHash != RecordHash(lib, r, prev)
    case HmacInvalid =>
      && r.seqNo == n && r.prevHash == prev && r.recordHash == RecordHash(lib, r, prev)
      && hmacKey != [] && r.hmac != Hex(lib.Hmac(hmacKey, r.recordHash))
    case _ => false
  }

  predicate RecordFits(lib: Library, hmacKey: Bytes, records: seq<Record>, i: nat)
    requires i < |records|
  {
    Fits(lib, records[i], i + 1, HeadBefore(records, i), hmacKey)
  }

  predicate RecordFails(lib: Library, hmacKey: Bytes, records: seq<Record>, i: nat, cls: Class)
    requires i < |records|
  {
    Fails(lib, records[i], i + 1, HeadBefore(records, i), hmacKey, cls)
  }

  ghost predicate RecordsIntact(lib: Library, hmacKey: Bytes, records: seq<Record>) {
    forall i :: 0 <= i < |records| ==> RecordFits(lib, hmacKey, records, i)
  }

  /** Checkpoint j is signed, follows its predecessor, and commits to the first treeSize records twice over. */
  ghost predicate CheckpointIntact(lib: Library, pub: nat, records: seq<Record>, cps: seq<Checkpoint>, j: nat)
    requires j < |cps|
  {
    var sth := cps[j].sth;
    && Signed(pub, sth, cps[j].sig)
    && sth.prevCP == (if j == 0 then NoSig else cps[j - 1].sig)
    && sth.treeSize <= |records|
    && sth.root == HeadBefore(records, sth.treeSize)
    && (sth.merkleRoot != [] ==> sth.merkleRoot == Hex(Root(lib.sha, Hashes(records[..sth.treeSize]))))
  }

  ghost predicate Intact(lib: Library, hmacKey: Bytes, pub: nat, records: seq<Record>, cps: seq<Checkpoint>) {
    && records != []
    && RecordsIntact(lib, hmacKey, records)
    && forall j :: 0 <= j < |cps| ==> CheckpointIntact(lib, pub, records, cps, j)
  }

  /** Some record fails with this class and sequence number, and all before it are intact. */
  ghost predicate FirstFault(lib: Library, hmacKey: Bytes, records: seq<Record>, cls: Class, atSeq: U64) {
    exists i :: FaultAt(lib, hmacKey, records, i, cls, atSeq)
  }

  ghost predicate FaultAt(lib: Library, hmacKey: Bytes, records: seq<Record>, i: nat, cls: Class, atSeq: U64) {
    && i < |records| && RecordFails(lib, hmacKey, records, i, cls) && records[i].seqNo == atSeq
    && forall j :: 0 <= j < i ==> RecordFits(lib, hmacKey, records, j)
  }

  /** Some checkpoint of this size is not intact, and all before it are. */
  ghost predicate FirstBadHead(lib: Library, pub: nat, records: seq<Record>, cps: seq<Checkpoint>, atSeq: U64) {
    exists j :: BadHeadAt(lib, pub, records, cps, j, atSeq)
  }

  ghost predicate BadHeadAt(lib: Library, pub: nat, records: seq<Record>, cps: seq<Checkpoint>, j: nat, atSeq: U64) {
    && j < |cps| && !CheckpointIntact(lib, pub, records, cps, j) && cps[j].sth.treeSize == atSeq
    && forall i :: 0 <= i < j ==> CheckpointIntact(lib, pub, records, cps, i)
  }

  /** The verifier's first loop: the first faulty record and its class. */
  method CheckRecords(lib: Library, records: seq<Record>, hmacKey: Bytes) returns (fault: Option<VerifyResult>)
    ensures fault.None? <==> RecordsIntact(lib, hmacKey, records)
    ensures fault.Some? ==> !fault.value.ok && FirstFault(lib, hmacKey, records, fault.value.cls, fault.value.atSeq)
  {
    var prevHash: Bytes := [];
    var expectSeq := 1;
    for i := 0 to |records|
      invariant prevHash == HeadBefore(records, i) && expectSeq == i + 1
      invariant IntactUpTo(lib, hmacKey, records, i)
    {
      var r := records[i];
      if r.seqNo != expectSeq {
        FaultyHere(lib, hmacKey, records, i, SeqGap);
        return Some(VerifyResult(false, SeqGap, r.seqNo));
      }
      if r.prevHash != prevHash {
        FaultyHere(lib, hmacKey, records, i, LinkageBreak);
        return Some(VerifyResult(false, LinkageBreak, r.seqNo));
      }
      if RecordHash(lib, r, prevHash) != r.recordHash {
        FaultyHere(lib, hmacKey, records, i, HashBreak);
        return Some(VerifyResult(false, HashBreak, r.seqNo));
      }
      if hmacKey != [] && Hex(lib.Hmac(hmacKey, r.recordHash)) != r.hmac {
        FaultyHere(lib, hmacKey, records, i, HmacInvalid);
        return Some(VerifyResult(false, HmacInvalid, r.seqNo));
      }
      IntactOneMore(lib, hmacKey, records, i, i + 1);
      expectSeq := expectSeq + 1;
      prevHash := records[i].recordHash;
    }
    fault := None;
  }

  ghost predicate IntactUpTo(lib: Library, hmacKey: Bytes, records: seq<Record>, n: nat)
    requires n <= |records|
  {
    forall j :: 0 <= j < n ==> RecordFits(lib, hmacKey, records, j)
  }

  lemma FaultyHere(lib: Library, hmacKey: Bytes, records: seq<Record>, i: nat, cls: Class)
    requires i < |records| && IntactUpTo(lib, hmacKey, records, i) && RecordFails(lib, hmacKey, records, i, cls)
    ensures FirstFault(lib, hmacKey, records, cls, records[i].seqNo) && !RecordsIntact(lib, hmacKey, records)
  {
    assert FaultAt(lib, hmacKey, records, i, cls, records[i].seqNo);
    assert !RecordFits(lib, hmacKey, records, i);
  }

  lemma IntactOneMore(lib: Library, hmacKey: Bytes, records: seq<Record>, i: nat, n: nat)
    requires n == i + 1 <= |records| && IntactUpTo(lib, hmacKey, records, i)
    requires RecordFits(lib, hmacKey, records, i)
    ensures IntactUpTo(lib, hmacKey, records, n)
  {
  }

  /** A record whose number is not its place breaks any chain. */
  lemma GapBreaks(lib: Library, hmacKey: Bytes, records: seq<Record>, i: nat)
    requires i < |records| && records[i].seqNo != i + 1
    ensures RecordFails(lib, hmacKey, records, i, SeqGap) && !RecordsIntact(lib, hmacKey, records)
  {
    assert !RecordFits(lib, hmacKey, records, i);
  }

  /** The chained root after each number of records, as the verifier tabulates it. */
  method RootTable(records: seq<Record>) returns (rootAt: map<U64, Bytes>)
    requires forall i :: 0 <= i < |records| ==> records[i].seqNo == i + 1
    ensures forall n: U64 :: n in rootAt <==> n <= |records|
    ensures forall n: U64 :: n in rootAt ==> rootAt[n] == HeadBefore(records, n)
  {
    rootAt := map[];
    for i := 0 to |records|
      invariant forall n: U64 :: n in rootAt <==> 1 <= n <= i
      invariant forall n: U64 :: n in rootAt ==> rootAt[n] == HeadBefore(records, n)
    {
      rootAt := rootAt[records[i].seqNo := records[i].recordHash];
    }
    rootAt := rootAt[0 := []];
  }

  /** The verifier's second loop: the first checkpoint that is not intact. */
  method CheckHeads(lib: Library, records: seq<Record>, cps: seq<Checkpoint>, pub: nat) returns (bad: Option<nat>)
    requires forall i :: 0 <= i < |records| ==> records[i].seqNo == i + 1
    ensures bad.None? ==> forall j :: 0 <= j < |cps| ==> CheckpointIntact(lib, pub, records, cps, j)
    ensures bad.Some? ==>
      && bad.value < |cps| && !CheckpointIntact(lib, pub, records, cps, bad.value)
      && forall j :: 0 <= j < bad.value ==> CheckpointIntact(lib, pub, records, cps, j)
  {
    var rootAt := RootTable(records);
    var pv := NoSig;
    for j := 0 to |cps|
      invariant pv == if j == 0 then NoSig else cps[j - 1].sig
      invariant forall i :: 0 <= i < j ==> CheckpointIntact(lib, pub, records, cps, i)
    {
      var sth, divergence: Option<nat> := cps[j].sth, Some(j);
      if !Signed(pub, sth, cps[j].sig) || sth.prevCP != pv {
        return divergence;
      }
      if sth.treeSize !in rootAt || rootAt[sth.treeSize] != sth.root {
        return divergence;
      }
      if sth.merkleRoot != [] {
        if |records| < sth.treeSize {
          return divergence;
        }
        var root := MerkleRoot(lib.sha, Hashes(records[..sth.treeSize]));
        if Hex(root) != sth.merkleRoot {
          return divergence;
        }
      }
      pv := cps[j].sig;
    }
    bad := None;
  }

  /** OK exactly for the intact chains; otherwise the first divergence and its class. */
  ghost predicate Reports(lib: Library, records: seq<Record>, cps: seq<Checkpoint>, hmacKey: Bytes, pub: nat,
                          res: VerifyResult) {
    && (res.ok <==> Intact(lib, hmacKey, pub, records, cps))
    && (res.ok ==> res.cls == if hmacKey == [] then HmacUnchecked else ClassOK)
    && (records == [] ==> res.cls == EmptyChain)
    && (records != [] && !RecordsIntact(lib, hmacKey, records) ==>
          FirstFault(lib, hmacKey, records, res.cls, res.atSeq))
    && (records != [] && RecordsIntact(lib, hmacKey, records) && !res.ok ==>
          res.cls == CheckpointBad && FirstBadHead(lib, pub, records, cps, res.atSeq))
  }

  /** Passes exactly the intact chains; otherwise reports the first divergence and its class. */
  method Verify(lib: Library, records: seq<Record>, cps: seq<Checkpoint>, hmacKey: Bytes, pub: nat)
    returns (res: VerifyResult)
    ensures Reports(lib, records, cps, hmacKey, pub, res)
  {
    if records == [] {
      return VerifyResult(false, EmptyChain, 0);
    }
    var fault := CheckRecords(lib, records, hmacKey);
    if fault.Some? {
      return fault.value;
    }
    forall i | 0 <= i < |records| ensures records[i].seqNo == i + 1 {
      assert RecordFits(lib, hmacKey, records, i);
    }
    var bad := CheckHeads(lib, records, cps, pub);
    if bad.Some? {
      assert BadHeadAt(lib, pub, records, cps, bad.value, cps[bad.value].sth.treeSize);
      return VerifyResult(false, CheckpointBad, cps[bad.value].sth.treeSize);
    }
    res := VerifyResult(true, if hmacKey == [] then HmacUnchecked else ClassOK, 0);
  }

  /** The class reported is the first check that the first bad record fails, whatever it is. */
  lemma ClassExactly(lib: Library, records: seq<Record>, cps: seq<Checkpoint>, hmacKey: Bytes, pub: nat,
                     res: VerifyResult, i: nat, cls: Class)
    requires Reports(lib, records, cps, hmacKey, pub, res)
    requires i < |records| && IntactUpTo(lib, hmacKey, records, i) && RecordFails(lib, hmacKey, records, i, cls)
    ensures res == VerifyResult(false, cls, records[i].seqNo)
  {
    FaultyHere(lib, hmacKey, records, i, cls);
    var k :| FaultAt(lib, hmacKey, records, k, res.cls, res.atSeq);
    OneFirstFault(lib, hmacKey, records, i, k, cls, res.cls);
  }

  lemma OneFirstFault(lib: Library, hmacKey: Bytes, records: seq<Record>, i: nat, k: nat, cls: Class, cls': Class)
    requires i < |records| && IntactUpTo(lib, hmacKey, records, i) && RecordFails(lib, hmacKey, records, i, cls)
    requires k < |records| && IntactUpTo(lib, hmacKey, records, k) && RecordFails(lib, hmacKey, records, k, cls')
    ensures i == k && cls == cls'
  {
    assert i < k ==> RecordFits(lib, hmacKey, records, i);
    assert k < i ==> RecordFits(lib, hmacKey, records, k);
  }

  ghost predicate AllWitnessed(cps: seq<Checkpoint>, witnessPub: nat) {
    forall j :: 0 <= j < |cps| ==> Signed(witnessPub, cps[j].sth, cps[j].witnessSig)
  }

  ghost predicate FirstUnwitnessed(cps: seq<Checkpoint>, witnessPub: nat, at: U64) {
    exists j: nat :: UnwitnessedAt(cps, witnessPub, j, at)
  }

  ghost predicate UnwitnessedAt(cps: seq<Checkpoint>, witnessPub: nat, j: nat, at: U64) {
    && j < |cps| && at == cps[j].sth.treeSize && !Signed(witnessPub, cps[j].sth, cps[j].witnessSig)
    && AllWitnessed(cps[..j], witnessPub)
  }

  method VerifyWitness(cps: seq<Checkpoint>, witnessPub: nat) returns (at: U64, ok: bool)
    ensures ok <==> AllWitnessed(cps, witnessPub)
    ensures !ok ==> FirstUnwitnessed(cps, witnessPub, at)
  {
    for j := 0 to |cps|
      invariant AllWitnessed(cps[..j], witnessPub)
    {
      if cps[j].witnessSig == NoSig || !Signed(witnessPub, cps[j].sth, cps[j].witnessSig) {
        assert UnwitnessedAt(cps, witnessPub, j, cps[j].sth.treeSize);
        return cps[j].sth.treeSize, false;
      }
    }
    assert cps[..|cps|] == cps;
    return 0, true;
  }

  // ---------------------------------------------------------------- binding

  /** `inputs` holds the hashed bytes of record i. */
  ghost predicate CoversRecord(inputs: set<Bytes>, lib: Library, records: seq<Record>, i: nat)
    requires i < |records|
  {
    RecordInput(lib, records[i], HeadBefore(records, i)) in inputs
  }

  ghost predicate CoversRecords(inputs: set<Bytes>, lib: Library, records: seq<Record>, n: nat)
    requires n <= |records|
  {
    forall i :: 0 <= i < n ==> CoversRecord(inputs, lib, records, i)
  }

  ghost predicate AllShort(lib: Library, records: seq<Record>, n: nat)
    requires n <= |records|
  {
    forall i :: 0 <= i < n ==> ShortFields(lib, records[i])
  }

  ghost predicate SameRecord(lib: Library, r: Record, r': Record) {
    SameFields(lib, r, r') && r.prevHash == r'.prevHash && r.recordHash == r'.recordHash
  }

  /** An intact chain's heads all have one length, except the first. */
  lemma HeadLength(lib: Library, key: Bytes, records: seq<Record>, i: nat)
    requires RecordsIntact(lib, key, records) && Digests32(lib.sha) && i <= |records|
    ensures |HeadBefore(records, i)| == if i == 0 then 0 else 64
  {
    if i > 0 {
      assert RecordFits(lib, key, records, i - 1);
    }
  }

  lemma BoundStep(lib: Library, inputs: set<Bytes>, key: Bytes, key': Bytes, a: seq<Record>, b: seq<Record>, i: nat)
    requires CollisionFree(lib.sha, inputs)
    requires RecordsIntact(lib, key, a) && RecordsIntact(lib, key', b) && i < |a| && i < |b|
    requires CoversRecord(inputs, lib, a, i) && CoversRecord(inputs, lib, b, i)
    requires ShortFields(lib, a[i]) && ShortFields(lib, b[i])
    requires a[i].recordHash == b[i].recordHash
    ensures SameRecord(lib, a[i], b[i]) && HeadBefore(a, i) == HeadBefore(b, i)
  {
    assert RecordFits(lib, key, a, i) && RecordFits(lib, key', b, i);
    HeadLength(lib, key, a, i);
    HeadLength(lib, key', b, i);
    HashBinds(lib, inputs, a[i], b[i], HeadBefore(a, i), HeadBefore(b, i));
  }

  /** Equal heads after n records were equal after every smaller number of records. */
  lemma {:induction false} HeadsAgree(
    lib: Library, inputs: set<Bytes>, key: Bytes, key': Bytes, a: seq<Record>, b: seq<Record>, n: nat, i: nat)
    requires CollisionFree(lib.sha, inputs)
    requires RecordsIntact(lib, key, a) && RecordsIntact(lib, key', b) && n <= |a| && n <= |b|
    requires CoversRecords(inputs, lib, a, n) && CoversRecords(inputs, lib, b, n)
    requires AllShort(lib, a, n) && AllShort(lib, b, n)
    requires HeadBefore(a, n) == HeadBefore(b, n)
    requires i <= n
    ensures HeadBefore(a, i) == HeadBefore(b, i)
    decreases n - i
  {
    if i < n {
      HeadsAgree(lib, inputs, key, key', a, b, n, i + 1);
      assert a[i].recordHash == b[i].recordHash;
      BoundStep(lib, inputs, key, key', a, b, i);
    }
  }

  lemma HeadFixesRecord(
    lib: Library, inputs: set<Bytes>, key: Bytes, key': Bytes, a: seq<Record>, b: seq<Record>, n: nat, i: nat)
    requires CollisionFree(lib.sha, inputs)
    requires RecordsIntact(lib, key, a) && RecordsIntact(lib, key', b) && n <= |a| && n <= |b|
    requires CoversRecords(inputs, lib, a, n) && CoversRecords(inputs, lib, b, n)
    requires AllShort(lib, a, n) && AllShort(lib, b, n)
    requires HeadBefore(a, n) == HeadBefore(b, n)
    requires i < n
    ensures SameRecord(lib, a[i], b[i])
  {
    HeadsAgree(lib, inputs, key, key', a, b, n, i + 1);
    assert a[i].recordHash == b[i].recordHash;
    BoundStep(lib, inputs, key, key', a, b, i);
  }

  /** One signed head fixes the whole history behind it, whatever chain it is accepted with. */
  lemma VerifyBinds(lib: Library, inputs: set<Bytes>, pub: nat, key: Bytes, key': Bytes,
                    a: seq<Record>, cps: seq<Checkpoint>, b: seq<Record>, cps': seq<Checkpoint>, j: nat, j': nat)
    requires CollisionFree(lib.sha, inputs)
    requires Intact(lib, key, pub, a, cps) && Intact(lib, key', pub, b, cps')
    requires j < |cps| && j' < |cps'| && cps[j].sth == cps'[j'].sth
    requires cps[j].sth.treeSize <= |a| && cps[j].sth.treeSize <= |b|
    requires CoversRecords(inputs, lib, a, cps[j].sth.treeSize) && CoversRecords(inputs, lib, b, cps[j].sth.treeSize)
    requires AllShort(lib, a, cps[j].sth.treeSize) && AllShort(lib, b, cps[j].sth.treeSize)
    ensures forall i :: 0 <= i < cps[j].sth.treeSize ==> SameRecord(lib, a[i], b[i])
  {
    assert CheckpointIntact(lib, pub, a, cps, j) && CheckpointIntact(lib, pub, b, cps', j');
    var n := cps[j].sth.treeSize;
    forall i | 0 <= i < n ensures SameRecord(lib, a[i], b[i]) {
      HeadFixesRecord(lib, inputs, key, key', a, b, n, i);
    }
  }

  // ---------------------------------------------------------------- editing a record

  /** The record before an edit keeps its place, and so does every other but the next. */
  lemma OthersStay(lib: Library, key: Bytes, records: seq<Record>, i: nat, r: Record, k: nat)
    requires RecordsIntact(lib, key, records) && i < |records| && k < |records| && k != i
    requires k != i + 1 || r.recordHash == records[i].recordHash
    ensures RecordFits(lib, key, records[i := r], k)
  {
    assert RecordFits(lib, key, records, k);
    assert HeadBefore(records[i := r], k) == HeadBefore(records, k);
  }

  /** An edit of one record is reported at that record, with the first check it fails. */
  lemma EditReported(lib: Library, key: Bytes, records: seq<Record>, cps: seq<Checkpoint>, pub: nat,
                     res: VerifyResult, i: nat, r: Record, cls: Class)
    requires RecordsIntact(lib, key, records) && i < |records|
    requires Reports(lib, records[i := r], cps, key, pub, res)
    requires Fails(lib, r, i + 1, records[i].prevHash, key, cls)
    ensures res == VerifyResult(false, cls, r.seqNo)
  {
    var edited := records[i := r];
    assert RecordFits(lib, key, records, i);
    assert HeadBefore(edited, i) == records[i].prevHash;
    forall k | 0 <= k < i ensures RecordFits(lib, key, edited, k) {
      OthersStay(lib, key, records, i, r, k);
    }
    ClassExactly(lib, edited, cps, key, pub, res, i, cls);
  }

  /** Another MAC under the same content is reported as such. */
  lemma MacEditReported(lib: Library, key: Bytes, records: seq<Record>, cps: seq<Checkpoint>, pub: nat,
                        res: VerifyResult, i: nat, mac: Bytes)
    requires RecordsIntact(lib, key, records) && i < |records| && key != [] && mac != records[i].hmac
    requires Reports(lib, records[i := records[i].(hmac := mac)], cps, key, pub, res)
    ensures res == VerifyResult(false, HmacInvalid, records[i].seqNo)
  {
    var r := records[i].(hmac := mac);
    assert RecordFits(lib, key, records, i);
    HashIgnoresHashes(lib, records[i], r, r.prevHash);
    EditReported(lib, key, records, cps, pub, res, i, r, HmacInvalid);
  }

  /** Content changed under the same number, link and hash is reported as altered. */
  lemma ContentEditReported(lib: Library, inputs: set<Bytes>, key: Bytes, records: seq<Record>, cps: seq<Checkpoint>,
                            pub: nat, res: VerifyResult, i: nat, r: Record)
    requires CollisionFree(lib.sha, inputs) && RecordsIntact(lib, key, records) && i < |records|
    requires CoversRecord(inputs, lib, records, i) && RecordInput(lib, r, records[i].prevHash) in inputs
    requires ShortFields(lib, records[i]) && ShortFields(lib, r)
    requires r.seqNo == i + 1 && r.prevHash == records[i].prevHash && r.recordHash == records[i].recordHash
    requires !SameFields(lib, r, records[i])
    requires Reports(lib, records[i := r], cps, key, pub, res)
    ensures res == VerifyResult(false, HashBreak, r.seqNo)
  {
    assert RecordFits(lib, key, records, i);
    HashBinds(lib, inputs, r, records[i], r.prevHash, r.prevHash);
    EditReported(lib, key, records, cps, pub, res, i, r, HashBreak);
  }

  /** The record that replaces another is the same in all that is checked. */
  ghost predicate Unchanged(lib: Library, key: Bytes, r: Record, r': Record) {
    SameRecord(lib, r, r') && (key != [] ==> r.hmac == r'.hmac)
  }

  /** Inside an intact chain an edit of one record goes unnoticed exactly when it changes nothing that is checked. */
  lemma EditExactly(lib: Library, inputs: set<Bytes>, key: Bytes, records: seq<Record>, i: nat, r: Record)
    requires CollisionFree(lib.sha, inputs) && RecordsIntact(lib, key, records) && i + 1 < |records|
    requires CoversRecord(inputs, lib, records, i) && RecordInput(lib, r, records[i].prevHash) in inputs
    requires ShortFields(lib, records[i]) && ShortFields(lib, r)
    ensures RecordsIntact(lib, key, records[i := r]) <==> Unchanged(lib, key, r, records[i])
  {
    var edited, p := records[i := r], records[i].prevHash;
    assert RecordFits(lib, key, records, i);
    assert HeadBefore(edited, i) == p;
    HashBinds(lib, inputs, r, records[i], p, p);
    if RecordsIntact(lib, key, edited) {
      assert RecordFits(lib, key, edited, i);
      NextStaysLinked(lib, key, records, i, r);
    } else if Unchanged(lib, key, r, records[i]) {
      assert SameGroup(lib, r, records[i], Identity);
      assert RecordFits(lib, key, edited, i);
      StillIntact(lib, key, records, i, r);
    }
  }

  lemma NextStaysLinked(lib: Library, key: Bytes, records: seq<Record>, i: nat, r: Record)
    requires i + 1 < |records| && RecordsIntact(lib, key, records) && RecordsIntact(lib, key, records[i := r])
    ensures r.recordHash == records[i].recordHash
  {
    assert RecordFits(lib, key, records, i + 1) && RecordFits(lib, key, records[i := r], i + 1);
  }

  lemma StillIntact(lib: Library, key: Bytes, records: seq<Record>, i: nat, r: Record)
    requires i < |records| && RecordsIntact(lib, key, records) && RecordFits(lib, key, records[i := r], i)
    requires r.recordHash == records[i].recordHash
    ensures RecordsIntact(lib, key, records[i := r])
  {
    var edited := records[i := r];
    forall k | 0 <= k < |edited| ensures RecordFits(lib, key, edited, k) {
      if k != i {
        OthersStay(lib, key, records, i, r, k);
      }
    }
  }
}
