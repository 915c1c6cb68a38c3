/**
  Handshake transcripts: messages are buffered until the hash function is known, then hashed as
  they come.  After a HelloRetryRequest the first ClientHello is replaced by a message carrying
  its hash (section 4.4.1 of RFC 8446).  A running hash is modelled by the bytes it has absorbed.
 */
module Transcripts {
  import opened Bytes

  /** Names a hash function; `HashFn` is an arbitrary family of them. */
  type Provider = nat
  type HashFn = (Provider, seq<byte>) -> seq<byte>

  /** The synthetic `message_hash` handshake message: type 254, 24-bit length, the hash. */
  function MessageHash(hash: seq<byte>): seq<byte> {
    [254, (|hash| / 65536) % 256, (|hash| / 256) % 256, |hash| % 256] + hash
  }

  /** Its type byte is 254, its 24-bit length that of the hash, its content the hash. */
  lemma {:induction false} MessageHashFields(hash: seq<byte>)
    requires |hash| < 0x100_0000
    ensures var m := MessageHash(hash);
            && |m| == 4 + |hash| && m[0] == 254 && m[4..] == hash
            && 65536 * (m[1] as int) + 256 * (m[2] as int) + m[3] as int == |hash|
  {
    var n := |hash|;
    Digits(n);
    var high := n / 65536;
    assert n == 65536 * high + n % 65536 && high % 256 == high;
  }

  class HandshakeHashBuffer {
    var buffer: seq<byte>
    var clientAuthEnabled: bool

    constructor ()
      ensures buffer == [] && !clientAuthEnabled
    {
      buffer, clientAuthEnabled := [], false;
    }

    method SetClientAuthEnabled()
      modifies `clientAuthEnabled
      ensures clientAuthEnabled
    {
      clientAuthEnabled := true;
    }

    method AddMessage(encoded: seq<byte>)
      modifies `buffer
      ensures buffer == old(buffer) + encoded
    {
      buffer := buffer + encoded;
    }

    method StartHash(provider: Provider) returns (h: HandshakeHash)
      ensures fresh(h) && h.provider == provider && h.absorbed == buffer
      ensures h.clientAuth == if clientAuthEnabled then Some(buffer) else None
    {
      h := new HandshakeHash(provider);
      h.absorbed := buffer;
      h.clientAuth := if clientAuthEnabled then Some(buffer) else None;
    }
  }

  class HandshakeHash {
    const provider: Provider
    var absorbed: seq<byte>
    var clientAuth: Option<seq<byte>>

    constructor (provider: Provider)
      ensures this.provider == provider && absorbed == [] && clientAuth == None
    {
      this.provider := provider;
      absorbed, clientAuth := [], None;
    }

    method AbandonClientAuth()
      modifies `clientAuth
      ensures clientAuth == None
    {
      clientAuth := None;
    }

    method AddMessage(encoded: seq<byte>)
      modifies this
      ensures absorbed == old(absorbed) + encoded
      ensures clientAuth == if old(clientAuth).Some? then Some(old(clientAuth).value + encoded) else None
    {
      absorbed := absorbed + encoded;
      match clientAuth
      case Some(b) => clientAuth := Some(b + encoded);
      case None =>
    }

    /** The client's way: back to a buffer that starts with the hash of everything so far. */
    method IntoHrrBuffer(hash: HashFn) returns (b: HandshakeHashBuffer)
      ensures fresh(b) && b.buffer == MessageHash(hash(provider, absorbed))
      ensures b.clientAuthEnabled == clientAuth.Some?
    {
      b := new HandshakeHashBuffer();
      b.buffer := MessageHash(hash(provider, absorbed));
      b.clientAuthEnabled := clientAuth.Some?;
    }

    /** The server's way: the running hash starts again with that message. */
    method RollupForHrr(hash: HashFn)
      modifies this
      ensures absorbed == MessageHash(hash(provider, old(absorbed)))
      ensures clientAuth == if old(clientAuth).Some? then Some(old(clientAuth).value + absorbed) else None
    {
      var message := MessageHash(hash(provider, absorbed));
      absorbed := [];
      AddMessage(message);
    }
  }

  /** The transcript up to the second ClientHello, as section 4.4.1 of RFC 8446 defines it. */
  function RetryTranscript(hash: HashFn, p: Provider, hello1: seq<byte>, retry: seq<byte>, hello2: seq<byte>)
    : seq<byte>
  {
    MessageHash(hash(p, hello1)) + retry + hello2
  }

  /**
    A client that buffers and a server that hashes as it goes have the same transcript after a
    retry, for every hash function both started with.
   */
  method BothSidesRetry(hash: HashFn, p: Provider, hello1: seq<byte>, retry: seq<byte>, hello2: seq<byte>)
    returns (client: HandshakeHash, server: HandshakeHash)
    ensures client.provider == server.provider == p
    ensures client.absorbed == server.absorbed == RetryTranscript(hash, p, hello1, retry, hello2)
  {
    var buffer := new HandshakeHashBuffer();
    buffer.AddMessage(hello1);
    assert [] + hello1 == hello1;
    var first := buffer.StartHash(p);
    var retried := first.IntoHrrBuffer(hash);
    retried.AddMessage(retry);
    retried.AddMessage(hello2);
    client := retried.StartHash(p);

    server := new HandshakeHash(p);
    server.AddMessage(hello1);
    server.RollupForHrr(hash);
    server.AddMessage(retry);
    server.AddMessage(hello2);
  }
}
