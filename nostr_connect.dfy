/** The Nostr Connect pairing handshake of NIP-46 as lib/nostr-connect.ts
    implements it, and its hex codec. Randomness, key derivation, NIP-04
    encryption and the relay pool are opaque: their results are parameters. */
module NostrConnect {
  import opened Wrappers
  import opened Types
  import opened JsStrings

  newtype byte = x: int | 0 <= x < 256

  // ---------------------------------------------------------------------
  // Hex encoding: `b.toString(16).padStart(2, '0')`

  function HexDigitChar(d: nat): char
    requires d < 16
  {
    if d < 10 then ('0' as int + d) as char else ('a' as int + d - 10) as char
  }

  /** `n.toString(16)` for a non-negative integer (lowercase digits). */
  function ToBase16(n: nat): (r: string)
    ensures |r| >= 1
    decreases n
  {
    if n < 16 then [HexDigitChar(n)] else ToBase16(n / 16) + [HexDigitChar(n % 16)]
  }

  /** `s.padStart(2, '0')` */
  function PadStart2(s: string): string {
    if |s| >= 2 then s else seq(2 - |s|, _ => '0') + s
  }

  function ByteToHex(b: byte): string {
    PadStart2(ToBase16(b as nat))
  }

  /** Every byte is rendered as exactly two lowercase digits, high nibble first. */
  lemma ByteToHexDigits(b: byte)
    ensures ByteToHex(b) == [HexDigitChar(b as nat / 16), HexDigitChar(b as nat % 16)]
  {
    if b as nat >= 16 {
      assert ToBase16(b as nat / 16) == [HexDigitChar(b as nat / 16)];
    }
  }

  /** `Array.from(bytes).map(b => b.toString(16).padStart(2, '0')).join('')` */
  function BytesToHex(bs: seq<byte>): (r: string)
    ensures |r| == 2 * |bs|
    ensures forall i :: 0 <= i < |bs| ==> r[2 * i..2 * i + 2] == ByteToHex(bs[i])
  {
    if bs == [] then ""
    else
      ByteToHexDigits(bs[0]);
      var rest := BytesToHex(bs[1..]);
      var r := ByteToHex(bs[0]) + rest;
      assert forall i :: 1 <= i < |bs| ==> r[2 * i..2 * i + 2] == rest[2 * (i - 1)..2 * (i - 1) + 2];
      r
  }

  predicate IsLowerHexChar(c: char) {
    '0' <= c <= '9' || 'a' <= c <= 'f'
  }

  // ---------------------------------------------------------------------
  // Decoding: `parseInt(hex.slice(i, i + 2), 16)` stored into a Uint8Array

  /** The value of a hex digit in either case, if `c` is one. */
  function HexValue(c: char): Option<nat> {
    if '0' <= c <= '9' then Some(c as int - '0' as int)
    else if 'a' <= c <= 'f' then Some(c as int - 'a' as int + 10)
    else if 'A' <= c <= 'F' then Some(c as int - 'A' as int + 10)
    else None
  }

  /** Length of the run of hex digits starting at index `i`. */
  function HexRunAt(s: string, i: nat): (n: nat)
    requires i <= |s|
    ensures i + n <= |s|
    ensures forall j :: i <= j < i + n ==> HexValue(s[j]).Some?
    ensures i + n == |s| || HexValue(s[i + n]).None?
    decreases |s| - i
  {
    if i == |s| || HexValue(s[i]).None? then 0 else 1 + HexRunAt(s, i + 1)
  }

  /** The base-16 value of the hex digits `s[i..j]`. */
  function HexNumber(s: string, i: nat, j: nat): nat
    requires i <= j <= |s|
    requires forall k :: i <= k < j ==> HexValue(s[k]).Some?
    decreases j - i
  {
    if j == i then 0 else 16 * HexNumber(s, i, j - 1) + HexValue(s[j - 1]).value
  }

  /** `parseInt(s, 16)`: leading whitespace and one sign are skipped, then an
      optional `0x`/`0X` prefix; the longest run of hex digits is read.
      `None` is NaN (no digit at all). */
  function ParseIntHex(s: string): (r: Option<int>)
  {
    var i := LeadingWs(s);
    var negative := i < |s| && s[i] == '-';
    var a := if i < |s| && (s[i] == '-' || s[i] == '+') then i + 1 else i;
    var b := if a + 1 < |s| && s[a] == '0' && (s[a + 1] == 'x' || s[a + 1] == 'X') then a + 2 else a;
    var n := HexRunAt(s, b);
    if n == 0 then None
    else if negative then Some(-(HexNumber(s, b, b + n) as int))
    else Some(HexNumber(s, b, b + n) as int)
  }

  /** Storing a number into a Uint8Array element (ToUint8): NaN is 0, any
      other integer is taken modulo 256. */
  function ToUint8(v: Option<int>): byte {
    if v.None? then 0 else (v.value % 256) as byte
  }

  /** The byte hexToBytes stores at index `k`: characters 2k and 2k+1. */
  function PairByte(hex: string, k: nat): byte
    requires 2 * k + 2 <= |hex|
  {
    ToUint8(ParseIntHex(hex[2 * k..2 * k + 2]))
  }

  /** The value hexToBytes computes, as a specification. */
  function DecodeHex(s: string): (r: Result<seq<byte>, string>)
    ensures r.Err? <==> |s| % 2 != 0
    ensures r.Err? ==> r.error == "Invalid hex string"
    ensures r.Ok? ==> |r.value| == |s| / 2
  {
    if |s| % 2 != 0 then Err("Invalid hex string") else Ok(PairBytes(s))
  }

  /** One byte per pair of characters. */
  function PairBytes(s: string): (r: seq<byte>)
    ensures |r| == |s| / 2
    ensures forall k :: 0 <= k < |r| ==> r[k] == PairByte(s, k)
  {
    seq(|s| / 2, k requires 0 <= k < |s| / 2 => PairByte(s, k))
  }

  /** hexToBytes (lib/nostr-connect.ts:125-134; lib/nostr-context.tsx:798-807
      is the same code): throws on odd length, otherwise fills one byte per
      pair of characters (the source steps i by 2 and writes index i/2;
      here k = i/2 is the loop variable). */
  method HexToBytes(hex: string) returns (r: Result<seq<byte>, string>)
    ensures r == DecodeHex(hex)
  {
    if |hex| % 2 != 0 {
      return Err("Invalid hex string");
    }
    var n := |hex| / 2;
    ghost var d := PairBytes(hex);
    var bytes := new byte[n];
    for k := 0 to n
      invariant forall j :: 0 <= j < k ==> bytes[j] == d[j]
    {
      var b := PairByte(hex, k);
      assert b == d[k];
      bytes[k] := b;
    }
    assert bytes[..] == d;
    return Ok(bytes[..]);
  }

  /** Two hex digits parse to their base-16 value. */
  lemma ParseTwoDigits(hi: nat, lo: nat)
    requires hi < 16 && lo < 16
    ensures ParseIntHex([HexDigitChar(hi), HexDigitChar(lo)]) == Some(16 * hi + lo)
  {
    var s := [HexDigitChar(hi), HexDigitChar(lo)];
    assert HexValue(s[0]) == Some(hi) && HexValue(s[1]) == Some(lo);
    assert LeadingWs(s) == 0 by {
      assert !IsJsWhitespace(s[0]);
    }
    assert s[1] != 'x' && s[1] != 'X';
    assert HexRunAt(s, 0) == 2 by {
      assert HexRunAt(s, 1) == 1;
    }
    assert HexNumber(s, 0, 1) == hi;
  }

  /** A byte's two-character rendering parses back to the byte. */
  lemma ParseByteHex(b: byte)
    ensures ParseIntHex(ByteToHex(b)) == Some(b as int)
    ensures ToUint8(ParseIntHex(ByteToHex(b))) == b
  {
    var hi, lo := b as nat / 16, b as nat % 16;
    ByteToHexDigits(b);
    ParseTwoDigits(hi, lo);
    assert (b as int) % 256 == b as int;
  }

  /** The pair of characters encoding a byte decodes to that byte. */
  lemma PairByteOfHex(s: string, k: nat, b: byte)
    requires 2 * k + 2 <= |s| && s[2 * k..2 * k + 2] == ByteToHex(b)
    ensures PairByte(s, k) == b
  {
    ParseByteHex(b);
  }

  /** hexToBytes inverts the secret's hex encoding. */
  lemma {:induction false} HexRoundTrip(bs: seq<byte>)
    ensures DecodeHex(BytesToHex(bs)) == Ok(bs)
  {
    var s := BytesToHex(bs);
    assert |s| / 2 == |bs|;
    forall k | 0 <= k < |bs|
      ensures PairByte(s, k) == bs[k]
    {
      PairByteOfHex(s, k, bs[k]);
    }
    assert DecodeHex(s).value == bs;
  }

  /** The encoding of 32 random bytes is 64 lowercase hex characters. */
  lemma {:induction false} SecretShape(bs: seq<byte>)
    requires |bs| == 32
    ensures |BytesToHex(bs)| == 64
    ensures forall i :: 0 <= i < 64 ==> IsLowerHexChar(BytesToHex(bs)[i])
  {
    var s := BytesToHex(bs);
    forall i | 0 <= i < 64 ensures IsLowerHexChar(s[i]) {
      var k := i / 2;
      ByteToHexDigits(bs[k]);
      assert s[2 * k..2 * k + 2] == ByteToHex(bs[k]);
      assert s[i] == s[2 * k..2 * k + 2][i - 2 * k];
    }
  }

  // ---------------------------------------------------------------------
  // encodeURIComponent and the pairing URI

  /** `encodeURIComponent("wss://relay.damus.io")` */
  const ENCODED_PAIRING_RELAY := "wss%3A%2F%2Frelay.damus.io"

  /** generateBunkerUri: built from the client's public key alone. */
  function BunkerUri(clientPubkey: string): string {
    "nostrconnect://" + clientPubkey + "?relay=" + ENCODED_PAIRING_RELAY
  }

  /** The key can be read back from the URI: it sits between the scheme
      and the fixed query, and two clients share a URI exactly when they
      share a public key, whatever relay each was configured with. */
  lemma {:induction false} BunkerUriInjective(k1: string, k2: string)
    ensures BunkerUri(k1)[..15] == "nostrconnect://"
    ensures BunkerUri(k1)[15..15 + |k1|] == k1
    ensures BunkerUri(k1) == BunkerUri(k2) <==> k1 == k2
  {
    var u1, u2 := BunkerUri(k1), BunkerUri(k2);
    assert u1 == "nostrconnect://" + (k1 + "?relay=" + ENCODED_PAIRING_RELAY);
    if u1 == u2 {
      assert |k1| == |k2|;
      assert u1[15..15 + |k1|] == k1;
      assert u2[15..15 + |k2|] == k2;
    }
  }

  // ---------------------------------------------------------------------
  // The handshake

  /** An incoming relay event, reduced to what the filters and handlers read. */
  datatype InboundEvent = InboundEvent(kind: int, pubkey: string, pTags: seq<string>, createdAt: int, content: string)

  /** The decrypted and parsed request: `method` (here `rpcMethod`) and `id` when present. */
  datatype ConnectMessage = ConnectMessage(rpcMethod: Option<string>, id: Option<string>)

  /** The response `{id, result: "ack", error: null}` before encryption. */
  datatype ConnectResponse = ConnectResponse(id: Option<string>, result: string, error: Option<string>)

  function AckFor(m: ConnectMessage): ConnectResponse {
    ConnectResponse(m.id, "ack", None)
  }

  /** The subscription filter of listenForConnection. */
  function ListenFilter(clientPubkey: string, nowMs: int): (f: Filter)
    ensures f.kinds == [NOSTR_KIND_NOSTR_CONNECT] && f.pTags == Some([clientPubkey])
    ensures f.since == Some(UnixSeconds(nowMs) - 60)
    ensures f.authors.None? && f.dTags.None? && f.limit.None?
  {
    Filter([NOSTR_KIND_NOSTR_CONNECT], None, None, Some([clientPubkey]), None, Some(UnixSeconds(nowMs) - 60), None)
  }

  /** A relay delivers to a subscription only the events its filter
      matches (the filter keys used here: kinds, authors, "#p", since). */
  predicate Matches(f: Filter, ev: InboundEvent) {
    && ev.kind in f.kinds
    && (f.authors.Some? ==> ev.pubkey in f.authors.value)
    && (f.pTags.Some? ==> exists t :: t in ev.pTags && t in f.pTags.value)
    && (f.since.Some? ==> ev.createdAt >= f.since.value)
  }

  /** What the handshake has done so far: the remote signer's key, the
      reply events published (content is the NIP-04 ciphertext) and the
      keys passed to onConnect, in order. */
  datatype Handshake = Handshake(
    remote: Option<string>,
    replies: seq<UnsignedEvent<string>>,
    connected: seq<string>)

  /** The reply event to a connect request from `sender`. */
  function ReplyEvent(clientPubkey: string, sender: string, ciphertext: string, nowMs: int): UnsignedEvent<string> {
    UnsignedEvent(NOSTR_KIND_NOSTR_CONNECT, UnixSeconds(nowMs), [["p", sender]], ciphertext, clientPubkey)
  }

  /** One event through the `onevent` handler. `decrypted` is the result of
      decrypting and parsing the content (`None` when either throws);
      `encrypt` is the NIP-04 encryption of a serialised response for the
      sender (`None` when it throws, in which case the remote key has
      already been recorded). */
  function OnEvent(h: Handshake, clientPubkey: string, ev: InboundEvent, decrypted: Option<ConnectMessage>,
                   encrypt: ConnectResponse -> Option<string>, nowMs: int): Handshake
  {
    if decrypted.None? || decrypted.value.rpcMethod != Some("connect") then h
    else
      var sealed := encrypt(AckFor(decrypted.value));
      if sealed.None? then h.(remote := Some(ev.pubkey))
      else Handshake(Some(ev.pubkey),
                     h.replies + [ReplyEvent(clientPubkey, ev.pubkey, sealed.value, nowMs)],
                     h.connected + [ev.pubkey])
  }

  /** A connect request records the sender, publishes one reply tagged to
      the sender and authored by the client whose content is the encrypted
      `{id: message.id, result: "ack", error: null}`, and calls onConnect
      once with the sender. If the encryption throws, only the sender is
      recorded. */
  lemma {:induction false} ConnectAcks(h: Handshake, clientPubkey: string, ev: InboundEvent,
                                       m: ConnectMessage, encrypt: ConnectResponse -> Option<string>, nowMs: int)
    requires m.rpcMethod == Some("connect")
    ensures var h' := OnEvent(h, clientPubkey, ev, Some(m), encrypt, nowMs);
            var ack := ConnectResponse(m.id, "ack", None);
            && h'.remote == Some(ev.pubkey)
            && (encrypt(ack).None? ==> h'.replies == h.replies && h'.connected == h.connected)
            && (encrypt(ack).Some? ==>
                && |h'.replies| == |h.replies| + 1 && h'.replies[..|h.replies|] == h.replies
                && h'.replies[|h.replies|].kind == NOSTR_KIND_NOSTR_CONNECT
                && h'.replies[|h.replies|].tags == [["p", ev.pubkey]]
                && h'.replies[|h.replies|].pubkey == clientPubkey
                && h'.replies[|h.replies|].content == encrypt(ack).value
                && h'.connected == h.connected + [ev.pubkey])
  {
    assert AckFor(m) == ConnectResponse(m.id, "ack", None);
  }

  /** Undecryptable or unparsable content, or a method other than
      "connect", leaves the handshake untouched. */
  lemma {:induction false} NonConnectIgnored(h: Handshake, clientPubkey: string, ev: InboundEvent,
                                             d: Option<ConnectMessage>, encrypt: ConnectResponse -> Option<string>, nowMs: int)
    requires d.None? || d.value.rpcMethod != Some("connect")
    ensures OnEvent(h, clientPubkey, ev, d, encrypt, nowMs) == h
  {
  }

  /** No once-only guard: a second connect event acks and connects again. */
  lemma {:induction false} RepeatedConnect(h: Handshake, clientPubkey: string, ev1: InboundEvent, ev2: InboundEvent,
                                           m1: ConnectMessage, m2: ConnectMessage,
                                           encrypt: ConnectResponse -> Option<string>, t1: int, t2: int)
    requires m1.rpcMethod == Some("connect") && m2.rpcMethod == Some("connect")
    requires encrypt(AckFor(m1)).Some? && encrypt(AckFor(m2)).Some?
    ensures var h2 := OnEvent(OnEvent(h, clientPubkey, ev1, Some(m1), encrypt, t1), clientPubkey, ev2, Some(m2), encrypt, t2);
            && |h2.replies| == |h.replies| + 2
            && h2.connected == h.connected + [ev1.pubkey, ev2.pubkey]
            && h2.remote == Some(ev2.pubkey)
  {
    ConnectAcks(h, clientPubkey, ev1, m1, encrypt, t1);
    var h1 := OnEvent(h, clientPubkey, ev1, Some(m1), encrypt, t1);
    ConnectAcks(h1, clientPubkey, ev2, m2, encrypt, t2);
  }

  /** The client object of createNostrConnectClient, with the effects of
      its listener recorded as fields. */
  class ConnectClient {
    const pubkey: string
    const relay: string
    const secret: string
    var remote: Option<string>
    var listening: bool
    var filter: Option<Filter>
    var replies: seq<UnsignedEvent<string>>
    var connected: seq<string>

    function State(): Handshake
      reads this
    {
      Handshake(remote, replies, connected)
    }

    /** createNostrConnectClient: `randomBytes` is what getRandomValues
        produced and `derivedPubkey` the public key of those bytes. */
    constructor (randomBytes: seq<byte>, derivedPubkey: string, relay: string)
      requires |randomBytes| == 32
      ensures pubkey == derivedPubkey && this.relay == relay
      ensures secret == BytesToHex(randomBytes)
      ensures DecodeHex(secret) == Ok(randomBytes)
      ensures State() == Handshake(None, [], []) && !listening && filter.None?
    {
      pubkey := derivedPubkey;
      this.relay := relay;
      secret := BytesToHex(randomBytes);
      remote := None;
      listening := false;
      filter := None;
      replies := [];
      connected := [];
      HexRoundTrip(randomBytes);
    }

    /** listenForConnection opens the subscription. */
    method Listen(nowMs: int)
      modifies this`listening, this`filter
      ensures listening && filter == Some(ListenFilter(pubkey, nowMs))
    {
      listening := true;
      filter := Some(ListenFilter(pubkey, nowMs));
    }

    /** An event delivered to the subscription; none arrive once it is closed. */
    method HandleEvent(ev: InboundEvent, decrypted: Option<ConnectMessage>,
                       encrypt: ConnectResponse -> Option<string>, nowMs: int)
      modifies this`remote, this`replies, this`connected
      ensures !old(listening) ==> State() == old(State())
      ensures old(listening) ==> State() == OnEvent(old(State()), pubkey, ev, decrypted, encrypt, nowMs)
    {
      if !listening {
        return;
      }
      if decrypted.None? || decrypted.value.rpcMethod != Some("connect") {
        return;
      }
      remote := Some(ev.pubkey);
      var sealed := encrypt(AckFor(decrypted.value));
      if sealed.None? {
        return;
      }
      replies := replies + [ReplyEvent(pubkey, ev.pubkey, sealed.value, nowMs)];
      connected := connected + [ev.pubkey];
    }

    /** The teardown function returned by listenForConnection. */
    method Teardown()
      modifies this`listening
      ensures !listening
    {
      listening := false;
    }
  }
}
