/**
 Values sealed for the shared coordinator (internal/gate/redisledger.go:17-55). The
 coordinator may answer anything at all; in keyed mode it cannot make a tag for a
 message that no node of the fleet sealed.
 */
module Sealing {
  import opened Text
  import opened Ban

  const NUL: char := '\0'

  predicate NulFree(s: string) {
    forall i :: 0 <= i < |s| ==> s[i] != NUL
  }

  /** The fleet's keyed HMAC, in hex, by message. */
  datatype Mac = Mac(graph: imap<string, string>) {
    function Tag(message: string): string {
      if message in graph then graph[message] else ""
    }
  }

  ghost predicate HexTags(mac: Mac) {
    forall message :: NulFree(mac.Tag(message))
  }

  function Message(ctx: string, payload: string): string {
    ctx + [NUL] + payload
  }

  /** Without a key the payload itself. */
  function Seal(key: Option<Mac>, ctx: string, payload: string): string {
    if key.None? then payload else payload + [NUL] + key.value.Tag(Message(ctx, payload))
  }

  function LastNul(s: string): (i: int)
    ensures -1 <= i < |s| && (i >= 0 ==> s[i] == NUL)
  {
    if s == "" then -1 else if s[|s| - 1] == NUL then |s| - 1 else LastNul(s[..|s| - 1])
  }

  function Open(key: Option<Mac>, ctx: string, val: string): Option<string> {
    if key.None? then Some(val)
    else
      var i := LastNul(val);
      if i < 0 then None
      else if val[i + 1..] != key.value.Tag(Message(ctx, val[..i])) then None
      else Some(val[..i])
  }

  lemma {:induction false} LastNulAt(a: string, b: string)
    requires NulFree(b)
    ensures LastNul(a + [NUL] + b) == |a|
  {
    var s := a + [NUL] + b;
    if b != "" {
      var b' := b[..|b| - 1];
      LastNulAt(a, b');
      assert s[..|s| - 1] == a + [NUL] + b';
    }
  }

  /** In keyed mode a value opens exactly when it is the sealed form of its payload for that context. */
  lemma OpenExactly(mac: Mac, ctx: string, val: string, payload: string)
    requires HexTags(mac)
    ensures Open(Some(mac), ctx, val) == Some(payload) <==> val == Seal(Some(mac), ctx, payload)
  {
    var tag := mac.Tag(Message(ctx, payload));
    assert NulFree(tag);
    if val == Seal(Some(mac), ctx, payload) {
      LastNulAt(payload, tag);
      assert val[..|payload|] == payload && val[|payload| + 1..] == tag;
    }
    if Open(Some(mac), ctx, val) == Some(payload) {
      var i := LastNul(val);
      assert val == val[..i] + [NUL] + val[i + 1..];
    }
  }

  /** A payload without NUL bytes is bound to its context: no other split gives the same message. */
  lemma UniqueSplit(ctx: string, payload: string, ctx': string, payload': string)
    requires NulFree(payload) && NulFree(payload') && Message(ctx, payload) == Message(ctx', payload')
    ensures ctx == ctx' && payload == payload'
  {
    LastNulAt(ctx, payload);
    LastNulAt(ctx', payload');
    var m := Message(ctx, payload);
    assert ctx == m[..|ctx|] && ctx' == m[..|ctx'|];
    assert payload == m[|ctx| + 1..] && payload' == m[|ctx'| + 1..];
  }

  // ---------------------------------------------------------------- what the fleet seals

  function VerdictPrefix(): string { "hmn:verdict:" }

  function BanPrefix(): string { "hmn:ban:" }

  /** A sticky verdict; the risk is the bit pattern of its 64-bit float. */
  datatype Sticky = Sticky(verdict: string, risk: int, rule: string, top: seq<string>, updated: int)

  /** JSON, both ways: some values cannot be rendered, some texts cannot be parsed. */
  datatype Codec = Codec(verdictText: imap<Sticky, string>, verdictOf: imap<string, Sticky>,
                         banText: imap<BanEntry, string>, banOf: imap<string, BanEntry>)

  /** What is rendered parses back, and JSON text has no NUL. */
  ghost predicate Faithful(codec: Codec) {
    && (forall v :: v in codec.verdictText ==>
          codec.verdictText[v] in codec.verdictOf && codec.verdictOf[codec.verdictText[v]] == v)
    && (forall b :: b in codec.banText ==> codec.banText[b] in codec.banOf && codec.banOf[codec.banText[b]] == b)
    && (forall t :: t in codec.verdictOf ==> NulFree(t))
    && (forall t :: t in codec.banOf ==> NulFree(t))
  }

  datatype Sealed = OfVerdict(sid: string, verdict: Sticky) | OfBan(key: string, ban: BanEntry)

  ghost predicate Renders(codec: Codec, s: Sealed, message: string) {
    match s
    case OfVerdict(sid, v) => v in codec.verdictText && message == Message(VerdictPrefix() + sid, codec.verdictText[v])
    case OfBan(key, b) => b in codec.banText && message == Message(BanPrefix() + key, codec.banText[b])
  }

  ghost predicate Issued(codec: Codec, issued: set<Sealed>, message: string) {
    exists s :: s in issued && Renders(codec, s, message)
  }

  /** A coordinator's value, opened for this context: if its tag fits, some node has sealed that message. */
  ghost predicate Unforged(mac: Mac, codec: Codec, issued: set<Sealed>, ctx: string, val: string) {
    var payload := Open(Some(mac), ctx, val);
    payload.Some? ==> Issued(codec, issued, Message(ctx, payload.value))
  }

  lemma PrefixesApart(sid: string, key: string)
    ensures VerdictPrefix() + sid != BanPrefix() + key
  {
    assert (VerdictPrefix() + sid)[4] == 'v' && (BanPrefix() + key)[4] == 'b';
  }

  lemma SamePrefix(prefix: string, a: string, b: string)
    requires prefix + a == prefix + b
    ensures a == b
  {
    assert a == (prefix + a)[|prefix|..] && b == (prefix + b)[|prefix|..];
  }

  /** A verdict that opens for a session was sealed for that session: no forging, no relocating. */
  lemma VerdictAuthentic(mac: Mac, codec: Codec, issued: set<Sealed>, sid: string, val: string, payload: string)
    requires Faithful(codec) && Unforged(mac, codec, issued, VerdictPrefix() + sid, val)
    requires Open(Some(mac), VerdictPrefix() + sid, val) == Some(payload) && payload in codec.verdictOf
    ensures OfVerdict(sid, codec.verdictOf[payload]) in issued
  {
    var message := Message(VerdictPrefix() + sid, payload);
    assert Issued(codec, issued, message);
    var s :| s in issued && Renders(codec, s, message);
    match s
    case OfVerdict(sid', v) =>
      UniqueSplit(VerdictPrefix() + sid, payload, VerdictPrefix() + sid', codec.verdictText[v]);
      SamePrefix(VerdictPrefix(), sid, sid');
    case OfBan(key, b) =>
      UniqueSplit(VerdictPrefix() + sid, payload, BanPrefix() + key, codec.banText[b]);
      PrefixesApart(sid, key);
  }

  lemma BanAuthentic(mac: Mac, codec: Codec, issued: set<Sealed>, key: string, val: string, payload: string)
    requires Faithful(codec) && Unforged(mac, codec, issued, BanPrefix() + key, val)
    requires Open(Some(mac), BanPrefix() + key, val) == Some(payload) && payload in codec.banOf
    ensures OfBan(key, codec.banOf[payload]) in issued
  {
    var message := Message(BanPrefix() + key, payload);
    assert Issued(codec, issued, message);
    var s :| s in issued && Renders(codec, s, message);
    match s
    case OfVerdict(sid, v) =>
      UniqueSplit(BanPrefix() + key, payload, VerdictPrefix() + sid, codec.verdictText[v]);
      PrefixesApart(sid, key);
    case OfBan(key', b) =>
      UniqueSplit(BanPrefix() + key, payload, BanPrefix() + key', codec.banText[b]);
      SamePrefix(BanPrefix(), key, key');
  }

  /** Outage, no value, or any value at all. */
  datatype Reply = Outage | Nil | Value(text: string)

  ghost predicate Answerable(mac: Mac, codec: Codec, issued: set<Sealed>, ctx: string, reply: Reply) {
    reply.Value? ==> Unforged(mac, codec, issued, ctx, reply.text)
  }
}
