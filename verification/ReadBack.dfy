/**
 The chain as it is read back from its JSON lines. JSON rewrites strings that are not
 UTF-8, so a record may come back changed; its number and its hexadecimal integrity
 fields come back as they were. Exactly then does the chain still verify when every
 record still hashes to its recorded hash.
 */
module ReadBack {
  import opened Hashing
  import opened Text
  import opened Canonical
  import opened RecordBinding
  import opened Verifier
  import W = Witness
  import B = Wal

  predicate IsAscii(b: Bytes) {
    forall i :: 0 <= i < |b| ==> b[i] < 0x80
  }

  predicate HexFields(r: Record) {
    IsAscii(r.prevHash) && IsAscii(r.recordHash) && IsAscii(r.hmac)
  }

  predicate SameIntegrity(r: Record, r': Record) {
    r'.seqNo == r.seqNo && r'.prevHash == r.prevHash && r'.recordHash == r.recordHash && r'.hmac == r.hmac
  }

  /** What JSON never changes: the number, and integrity fields in ASCII. */
  ghost predicate KeepsIntegrity(json: B.Json) {
    forall r :: json.Renders(r) ==>
      json.Back(r).seqNo == r.seqNo && (HexFields(r) ==> SameIntegrity(r, json.Back(r)))
  }

  /** Records of two lists, one by one, with the same integrity fields. */
  ghost predicate SameIntegrities(recs: seq<Record>, back: seq<Record>) {
    |back| == |recs| && forall i :: 0 <= i < |recs| ==> SameIntegrity(recs[i], back[i])
  }

  lemma {:induction false} HexIsAscii(b: Bytes)
    ensures IsAscii(Hex(b))
  {
    if b != [] {
      HexIsAscii(b[1..]);
    }
  }

  /** The integrity fields of an intact chain under an HMAC key are hexadecimal. */
  lemma IntactFields(lib: Library, key: Bytes, recs: seq<Record>, i: nat)
    requires key != [] && RecordsIntact(lib, key, recs) && i < |recs|
    ensures HexFields(recs[i])
  {
    assert RecordFits(lib, key, recs, i);
    if i > 0 {
      assert RecordFits(lib, key, recs, i - 1);
      HexIsAscii(lib.sha.Digest(RecordInput(lib, recs[i - 1], HeadBefore(recs, i - 1))));
    }
    HexIsAscii(lib.sha.Digest(RecordInput(lib, recs[i], HeadBefore(recs, i))));
    HexIsAscii(lib.Hmac(key, recs[i].recordHash));
  }

  lemma IntactComesBack(lib: Library, key: Bytes, json: B.Json, recs: seq<Record>)
    requires key != [] && RecordsIntact(lib, key, recs) && KeepsIntegrity(json) && B.AllRendered(json, recs)
    ensures SameIntegrities(recs, B.Reread(json, recs))
  {
    var back := B.Reread(json, recs);
    forall i | 0 <= i < |recs| ensures SameIntegrity(recs[i], back[i]) {
      IntactFields(lib, key, recs, i);
      B.RereadAt(json, recs, i);
      assert json.Renders(recs[i]);
    }
  }

  /** Record i of the list read back still hashes to its recorded hash. */
  ghost predicate HashKept(lib: Library, json: B.Json, s: Record) {
    RecordHash(lib, json.Back(s), s.prevHash) == s.recordHash
  }

  ghost predicate HashesKept(lib: Library, json: B.Json, recs: seq<Record>) {
    forall i :: 0 <= i < |recs| ==> HashKept(lib, json, recs[i])
  }

  lemma SameHeadBefore(recs: seq<Record>, back: seq<Record>, n: nat)
    requires SameIntegrities(recs, back) && n <= |recs|
    ensures HeadBefore(back, n) == HeadBefore(recs, n)
  {
  }

  lemma FaultComesBack(lib: Library, key: Bytes, recs: seq<Record>, back: seq<Record>, i: nat)
    requires SameIntegrities(recs, back) && i < |recs| && RecordFits(lib, key, recs, i)
    ensures RecordFits(lib, key, back, i) <==> RecordHash(lib, back[i], recs[i].prevHash) == recs[i].recordHash
  {
    SameHeadBefore(recs, back, i);
    assert SameIntegrity(recs[i], back[i]);
  }

  /** An intact chain reads back as an intact chain if and only if every record read back keeps its hash. */
  lemma ReadBackExactly(lib: Library, key: Bytes, json: B.Json, recs: seq<Record>)
    requires key != [] && RecordsIntact(lib, key, recs) && KeepsIntegrity(json) && B.AllRendered(json, recs)
    ensures RecordsIntact(lib, key, B.Reread(json, recs)) <==> HashesKept(lib, json, recs)
  {
    var back := B.Reread(json, recs);
    IntactComesBack(lib, key, json, recs);
    forall i | 0 <= i < |recs| ensures RecordFits(lib, key, back, i) <==> HashKept(lib, json, recs[i]) {
      assert RecordFits(lib, key, recs, i);
      FaultComesBack(lib, key, recs, back, i);
      B.RereadAt(json, recs, i);
    }
    BothIntact(lib, key, json, recs, back);
  }

  lemma BothIntact(lib: Library, key: Bytes, json: B.Json, recs: seq<Record>, back: seq<Record>)
    requires |back| == |recs|
    requires forall i :: 0 <= i < |recs| ==> (RecordFits(lib, key, back, i) <==> HashKept(lib, json, recs[i]))
    ensures RecordsIntact(lib, key, back) <==> HashesKept(lib, json, recs)
  {
  }

  /** In terms of the record: its hash is kept exactly when its fields are, after normalisation. */
  lemma HashKeptExactly(lib: Library, inputs: set<Bytes>, json: B.Json, s: Record)
    requires CollisionFree(lib.sha, inputs) && s.recordHash == RecordHash(lib, s, s.prevHash)
    requires RecordInput(lib, s, s.prevHash) in inputs && RecordInput(lib, json.Back(s), s.prevHash) in inputs
    requires ShortFields(lib, s) && ShortFields(lib, json.Back(s))
    ensures HashKept(lib, json, s) <==> SameFields(lib, json.Back(s), s)
  {
    HashBinds(lib, inputs, json.Back(s), s, s.prevHash, s.prevHash);
  }

  // ---------------------------------------------------------------- a record that is rewritten

  /** A failing input: a reason that is not UTF-8, which JSON replaces by U+FFFD, costs the record its hash. */
  lemma RewrittenReason(lib: Library, inputs: set<Bytes>, json: B.Json, s: Record, text: Bytes)
    requires CollisionFree(lib.sha, inputs) && s.recordHash == RecordHash(lib, s, s.prevHash)
    requires RecordInput(lib, s, s.prevHash) in inputs && RecordInput(lib, json.Back(s), s.prevHash) in inputs
    requires ShortFields(lib, s) && ShortFields(lib, json.Back(s))
    requires s.failReason == text + [0xFF] && json.Back(s) == s.(failReason := text + [0xEF, 0xBF, 0xBD])
    requires lib.Nfc(text + [0xFF]) != lib.Nfc(text + [0xEF, 0xBF, 0xBD])
    ensures !HashKept(lib, json, s)
  {
    HashKeptExactly(lib, inputs, json, s);
    assert !SameGroup(lib, json.Back(s), s, Enforcement);
  }

  lemma SameHashes(recs: seq<Record>, back: seq<Record>)
    requires SameIntegrities(recs, back)
    ensures Hashes(back) == Hashes(recs)
  {
    forall i | 0 <= i < |recs| ensures Hashes(back)[i] == Hashes(recs)[i] {
      assert SameIntegrity(recs[i], back[i]);
    }
  }

  /** A checkpoint is intact over the chain read back exactly when it is over the chain itself. */
  lemma HeadComesBack(lib: Library, pub: nat, recs: seq<Record>, back: seq<Record>, cps: seq<W.Checkpoint>, j: nat)
    requires SameIntegrities(recs, back) && j < |cps|
    ensures CheckpointIntact(lib, pub, back, cps, j) <==> CheckpointIntact(lib, pub, recs, cps, j)
  {
    var n := cps[j].sth.treeSize;
    if n <= |recs| {
      SameHeadBefore(recs, back, n);
      forall i | 0 <= i < n ensures SameIntegrity(recs[..n][i], back[..n][i]) {
        assert SameIntegrity(recs[i], back[i]);
      }
      SameHashes(recs[..n], back[..n]);
    }
  }

  /** A number out of place stays out of place. */
  ghost predicate Gapped(recs: seq<Record>) {
    exists i :: 0 <= i < |recs| && recs[i].seqNo != i + 1
  }

  lemma GapComesBack(lib: Library, key: Bytes, json: B.Json, recs: seq<Record>)
    requires Gapped(recs) && KeepsIntegrity(json) && B.AllRendered(json, recs)
    ensures !RecordsIntact(lib, key, B.Reread(json, recs))
  {
    var i: nat :| i < |recs| && recs[i].seqNo != i + 1;
    B.RereadAt(json, recs, i);
    assert json.Renders(recs[i]);
    GapBreaks(lib, key, B.Reread(json, recs), i);
  }
}
