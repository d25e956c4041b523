/**
 The pseudonym vault (internal/audit/pseudonym.go): per-subject linkage keys,
 crypto-shredding, and the snapshot that carries both across restarts.
 */
module Pseudonym {
  import opened Hashing
  import opened Text

  datatype VaultState = VaultState(keys: map<string, Bytes>, shredded: set<string>, index: map<string, string>)

  function NewVault(): VaultState {
    VaultState(map[], {}, map[])
  }

  function Linked(v: VaultState, handle: string, subject: string): VaultState {
    if handle == "" || subject == "" || subject in v.shredded then v else v.(index := v.index[handle := subject])
  }

  function Resolve(v: VaultState, handle: string): Option<string> {
    if handle in v.index then Some(v.index[handle]) else None
  }

  /** The subject's key, minted from fresh random bytes on first use; None is a tombstone. */
  function SubjectKey(v: VaultState, subject: string, create: bool, random: Bytes): (VaultState, Option<Bytes>) {
    if subject in v.keys then (v, Some(v.keys[subject]))
    else if subject in v.shredded || !create then (v, None)
    else (v.(keys := v.keys[subject := random]), Some(random))
  }

  function Shredded(v: VaultState, subject: string): VaultState {
    VaultState(v.keys - {subject}, v.shredded + {subject},
               map handle | handle in v.index && v.index[handle] != subject :: v.index[handle])
  }

  /** No key, a tombstone against minting one, and no handle that leads to the subject. */
  predicate Erased(v: VaultState, subject: string) {
    subject in v.shredded && subject !in v.keys && forall handle :: handle in v.index ==> v.index[handle] != subject
  }

  /** Every tombstone stands for an erased subject. */
  ghost predicate Sound(v: VaultState) {
    forall subject :: subject in v.shredded ==> Erased(v, subject)
  }

  // ---------------------------------------------------------------- snapshots

  /** The sealed form, with the keys in hex. */
  datatype Snap = Snap(keys: map<string, Bytes>, shredded: set<string>, index: map<string, string>)

  function Snapshot(v: VaultState): Snap {
    Snap(map subject | subject in v.keys :: Hex(v.keys[subject]), v.shredded, v.index)
  }

  /** No snapshot loads as a fresh vault; a key that is not hex is dropped. */
  function Load(blob: Option<Snap>): VaultState {
    if blob.None? then NewVault()
    else
      var s := blob.value;
      VaultState(map subject | subject in s.keys && Unhex(s.keys[subject]).Some? :: Unhex(s.keys[subject]).value,
                 s.shredded, s.index)
  }

  /** A snapshot loads as the same vault. */
  lemma SnapshotRoundTrip(v: VaultState)
    ensures Load(Some(Snapshot(v))) == v
  {
    var s, w := Snapshot(v), Load(Some(Snapshot(v)));
    forall subject | subject in v.keys ensures Unhex(s.keys[subject]) == Some(v.keys[subject]) {
      HexRoundTrip(v.keys[subject]);
    }
    assert w.keys.Keys == v.keys.Keys;
    assert w.keys == v.keys;
  }

  class Vault {
    var keys: map<string, Bytes>
    var shredded: set<string>
    var index: map<string, string>

    function View(): VaultState
      reads this
    {
      VaultState(keys, shredded, index)
    }

    constructor ()
      ensures View() == NewVault()
    {
      keys, shredded, index := map[], {}, map[];
    }

    method Link(handle: string, subject: string)
      modifies this
      ensures View() == Linked(old(View()), handle, subject)
    {
      if handle == "" || subject == "" {
        return;
      }
      if subject !in shredded {
        index := index[handle := subject];
      }
    }

    method Key(subject: string, create: bool, random: Bytes) returns (key: Option<Bytes>)
      modifies this
      ensures (View(), key) == SubjectKey(old(View()), subject, create, random)
    {
      if subject in keys {
        return Some(keys[subject]);
      }
      if subject in shredded || !create {
        return None;
      }
      keys := keys[subject := random];
      return Some(random);
    }

    method Shred(subject: string) returns (existed: bool)
      modifies this
      ensures View() == Shredded(old(View()), subject) && existed == (subject in old(keys))
    {
      existed := subject in keys;
      keys := keys - {subject};
      shredded := shredded + {subject};
      var todo := index.Keys;
      ghost var was := index;
      while todo != {}
        invariant keys == old(keys) - {subject} && shredded == old(shredded) + {subject}
        invariant todo <= was.Keys && was == old(index)
        invariant forall h :: h in index <==> h in was && (h in todo || was[h] != subject)
        invariant forall h :: h in index ==> index[h] == was[h]
        decreases todo
      {
        var h :| h in todo;
        if index[h] == subject {
          index := index - {h};
        }
        todo := todo - {h};
      }
    }
  }

  // ---------------------------------------------------------------- what stays erased

  lemma LinkKeeps(v: VaultState, handle: string, subject: string)
    requires Sound(v)
    ensures Sound(Linked(v, handle, subject)) && Linked(v, handle, subject).shredded == v.shredded
  {
    var w := Linked(v, handle, subject);
    forall s | s in w.shredded ensures Erased(w, s) {
      assert Erased(v, s);
    }
  }

  lemma MintKeeps(v: VaultState, subject: string, random: Bytes)
    requires Sound(v)
    ensures Sound(SubjectKey(v, subject, true, random).0)
    ensures SubjectKey(v, subject, true, random).0.shredded == v.shredded
    ensures subject in v.shredded ==> SubjectKey(v, subject, true, random) == (v, None)
  {
    var w := SubjectKey(v, subject, true, random).0;
    if subject in v.shredded {
      assert Erased(v, subject);
    }
    forall s | s in w.shredded ensures Erased(w, s) {
      assert Erased(v, s);
    }
  }
}
