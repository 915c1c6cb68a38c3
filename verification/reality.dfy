/**
  Reality authentication: the client seals a timestamp and a short id into the session id of its
  ClientHello, with the hello itself (session id zeroed) as associated data; the server parses
  the hello it receives, rebuilds that data and opens the session id.

  The AEAD, the key derivation and the clocks are parameters.
 */
module Reality {
  import opened Bytes
  import opened ClientHello

  datatype Aead = Aead(
    seal: (seq<byte>, seq<byte>, seq<byte>, seq<byte>) -> seq<byte>,
    open: (seq<byte>, seq<byte>, seq<byte>, seq<byte>) -> Option<seq<byte>>)

  /** Opening undoes sealing under the same key, nonce and associated data; the tag has 16 bytes. */
  ghost predicate Ideal(a: Aead) {
    forall k, n, d, m :: |a.seal(k, n, d, m)| == |m| + 16 && a.open(k, n, d, a.seal(k, n, d, m)) == Some(m)
  }

  function Zeros(n: nat): (z: seq<byte>)
    ensures |z| == n && forall i :: 0 <= i < n ==> z[i] == 0
  {
    seq<byte>(n, _ => 0)
  }

  // -----------------------------------------------------------------------------------------
  // The client
  // -----------------------------------------------------------------------------------------

  /** A short id in its 8-byte field: cut to 8 bytes, or filled up with zeros. */
  function ShortIdField(shortId: seq<byte>): (f: seq<byte>)
    ensures |f| == 8
  {
    if |shortId| >= 8 then shortId[..8] else shortId + Zeros(8 - |shortId|)
  }

  /** Version 0, the low 32 bits of the time, the short id. */
  function AuthPayload(now: nat, shortId: seq<byte>): (p: seq<byte>)
    ensures |p| == 16
  {
    Zeros(4) + PutBe32(now % 0x1_0000_0000) + ShortIdField(shortId)
  }

  /** The client zeroes the session id only when bytes follow it. */
  function ClientAad(raw: seq<byte>, offset: nat): (d: seq<byte>)
    ensures |d| == |raw|
    ensures forall k :: 0 <= k < |raw| ==>
              d[k] == if |raw| > offset + 32 && offset <= k < offset + 32 then 0 else raw[k]
  {
    if |raw| > offset + 32 then raw[..offset] + Zeros(32) + raw[offset + 32..] else raw
  }

  function SealedSessionId(a: Aead, key: seq<byte>, random: seq<byte>, raw: seq<byte>, offset: nat,
                           now: nat, shortId: seq<byte>): seq<byte>
    requires |random| == 32
  {
    a.seal(key, random[20..32], ClientAad(raw, offset), AuthPayload(now, shortId))
  }

  method ZeroRange(a: array<byte>, from: nat, to: nat)
    requires from <= to <= a.Length
    modifies a
    ensures a[..] == old(a[..from]) + Zeros(to - from) + old(a[to..])
  {
    var i := from;
    while i < to
      invariant from <= i <= to
      invariant a[..] == old(a[..from]) + Zeros(i - from) + old(a[i..])
    {
      a[i] := 0;
      i := i + 1;
    }
  }

  method EncryptSessionIdWithKey(a: Aead, shortId: seq<byte>, key: seq<byte>, random: seq<byte>, raw: seq<byte>,
                                 offset: nat, now: nat)
    returns (sessionId: seq<byte>)
    requires Ideal(a) && |random| == 32
    ensures sessionId == SealedSessionId(a, key, random, raw, offset, now, shortId) && |sessionId| == 32
  {
    var plaintext := new byte[16](_ => 0);
    var stamp := PutBe32(now % 0x1_0000_0000);
    forall i | 0 <= i < 4 {
      plaintext[4 + i] := stamp[i];
    }
    var sidLen := Min(|shortId|, 8);
    forall i | 0 <= i < sidLen {
      plaintext[8 + i] := shortId[i];
    }
    assert plaintext[..] == AuthPayload(now, shortId);
    var aad := new byte[|raw|](i requires 0 <= i < |raw| => raw[i]);
    assert aad[..] == raw;
    if aad.Length > offset + 32 {
      ZeroRange(aad, offset, offset + 32);
    }
    assert aad[..] == ClientAad(raw, offset);
    var sealed := a.seal(key, random[20..32], aad[..], plaintext[..]);
    sessionId := sealed[..32];
  }

  // -----------------------------------------------------------------------------------------
  // The server
  // -----------------------------------------------------------------------------------------

  datatype Config = Config(
    deriveKey: (seq<byte>, seq<byte>) -> seq<byte>,
    shortIds: seq<seq<byte>>,
    serverNames: seq<seq<byte>>,
    maxTimeDiff: nat)

  datatype Auth = Auth(version: seq<byte>, timestamp: nat, shortId: seq<byte>)

  datatype Refusal =
    | SniNotListed | NoKeyShare | BadSessionIdLength | AadTooShort | DecryptionFailed | AuthTooShort
    | ShortIdNotListed | TimestampDrift

  datatype Verdict = Ok(auth: Auth) | Refused(why: Refusal)

  function SniOf(info: Info): seq<byte> {
    if info.sni.Some? then info.sni.value else []
  }

  /** The server zeroes the session id whenever it is all there. */
  function ServerAad(raw: seq<byte>, offset: nat): seq<byte>
    requires offset + 32 <= |raw|
  {
    raw[..offset] + Zeros(32) + raw[offset + 32..]
  }

  function Distance(a: nat, b: nat): nat {
    if a > b then a - b else b - a
  }

  /** The checks on an opened payload. */
  function Judge(c: Config, now: nat, payload: seq<byte>): Verdict {
    if |payload| < 16 then Refused(AuthTooShort)
    else
      var auth := Auth(payload[..4], Be32(payload[4], payload[5], payload[6], payload[7]), payload[8..16]);
      if auth.shortId !in c.shortIds then Refused(ShortIdNotListed)
      else if Distance(now % 0x1_0000_0000, auth.timestamp) > c.maxTimeDiff % 0x1_0000_0000 then Refused(TimestampDrift)
      else Ok(auth)
  }

  function Verify(a: Aead, c: Config, info: Info, now: nat): Verdict
    requires |info.random| == 32
  {
    if SniOf(info) !in c.serverNames then Refused(SniNotListed)
    else if info.x25519Key.None? then Refused(NoKeyShare)
    else if |info.sessionId| != 32 then Refused(BadSessionIdLength)
    else if |info.raw| < info.sessionIdOffset + 32 then Refused(AadTooShort)
    else
      var key := c.deriveKey(info.x25519Key.value, info.random[..20]);
      match a.open(key, info.random[20..32], ServerAad(info.raw, info.sessionIdOffset), info.sessionId)
      case None => Refused(DecryptionFailed)
      case Some(payload) => Judge(c, now, payload)
  }

  method VerifyClientHello(a: Aead, c: Config, info: Info, now: nat) returns (v: Verdict)
    requires |info.random| == 32
    ensures v == Verify(a, c, info, now)
  {
    var sni := SniOf(info);
    if sni !in c.serverNames {
      return Refused(SniNotListed);
    }
    if info.x25519Key.None? {
      return Refused(NoKeyShare);
    }
    var key := c.deriveKey(info.x25519Key.value, info.random[..20]);
    if |info.sessionId| != 32 {
      return Refused(BadSessionIdLength);
    }
    var raw := info.raw;
    var aad := new byte[|raw|](i requires 0 <= i < |raw| => raw[i]);
    assert aad[..] == raw;
    var start := info.sessionIdOffset;
    if aad.Length < start + 32 {
      return Refused(AadTooShort);
    }
    ZeroRange(aad, start, start + 32);
    assert aad[..] == ServerAad(raw, start);
    var plain := a.open(key, info.random[20..32], aad[..], info.sessionId);
    match plain
    case None => v := Refused(DecryptionFailed);
    case Some(payload) => v := Judge(c, now, payload);
  }

  // -----------------------------------------------------------------------------------------
  // Agreement
  // -----------------------------------------------------------------------------------------

  /** The hello with its 32 session-id bytes replaced, at the offset the parser reports. */
  function WithSessionId(data: seq<byte>, sessionId: seq<byte>): seq<byte>
    requires |data| >= 71
  {
    data[..39] + sessionId + data[71..]
  }

  /** A hello the parser accepts with a 32-byte session id has bytes behind it. */
  lemma {:induction false} AcceptedIsLong(utf8: Utf8, data: seq<byte>, info: Info)
    requires ParseHello(utf8, data) == Some(info) && |info.sessionId| == 32
    ensures |info.random| == 32 && info.sessionIdOffset == 39 && info.raw <= data
    ensures |info.raw| >= 74 && info.raw[39..71] == info.sessionId
  {
    var len := Be24(data[1], data[2], data[3]);
    var body := data[4..4 + len];
    assert info.raw[39..71] == body[35..67];
  }

  /** Changing the session-id bytes changes nothing else that is parsed. */
  lemma {:induction false} ParseIgnoresSessionId(utf8: Utf8, data: seq<byte>, info: Info, sessionId: seq<byte>)
    requires ParseHello(utf8, data) == Some(info) && |info.sessionId| == 32 && |sessionId| == 32
    ensures |data| >= 71 && |info.raw| >= 71
    ensures ParseHello(utf8, WithSessionId(data, sessionId))
         == Some(info.(raw := WithSessionId(info.raw, sessionId), sessionId := sessionId))
  {
    AcceptedIsLong(utf8, data, info);
    ReplacedSlices(data, Be24(data[1], data[2], data[3]), sessionId);
  }

  lemma {:induction false} ReplacedSlices(data: seq<byte>, len: nat, sessionId: seq<byte>)
    requires 71 <= 4 + len <= |data| && |sessionId| == 32
    ensures var d := WithSessionId(data, sessionId);
            var b, b' := data[4..4 + len], d[4..4 + len];
            && |d| == |data| && d[0] == data[0] && d[1] == data[1] && d[2] == data[2] && d[3] == data[3]
            && d[..4 + len] == WithSessionId(data[..4 + len], sessionId)
            && b'[34] == b[34] && b'[2..34] == b[2..34] && b'[35..67] == sessionId && b'[67..] == b[67..]
  {
    var d := WithSessionId(data, sessionId);
    assert forall i :: 0 <= i < 39 ==> d[i] == data[i];
    assert forall i :: 71 <= i < |data| ==> d[i] == data[i];
    assert d[39..71] == sessionId;
    var b, b' := data[4..4 + len], d[4..4 + len];
    SliceOfSlice(d, 4, 4 + len, 35, 67);
    SliceOfSlice(d, 4, 4 + len, 2, 34);
    SliceOfSlice(data, 4, 4 + len, 2, 34);
    assert d[6..38] == data[6..38];
    assert b'[67..] == b[67..];
  }

  lemma {:induction false} SliceOfSlice(s: seq<byte>, a: nat, b: nat, i: nat, j: nat)
    requires a <= b <= |s| && i <= j <= b - a
    ensures s[a..b][i..j] == s[a + i..a + j]
  {
    var x, y := s[a..b][i..j], s[a + i..a + j];
    forall k | 0 <= k < j - i ensures x[k] == y[k] {
      assert x[k] == s[a..b][i + k];
    }
  }

  /** Both sides compute the same associated data, whatever bytes stand in the session id. */
  lemma {:induction false} SameAssociatedData(raw: seq<byte>, sessionId: seq<byte>)
    requires |raw| > 71 && |sessionId| == 32
    ensures ServerAad(WithSessionId(raw, sessionId), 39) == ClientAad(raw, 39)
  {
    var r := WithSessionId(raw, sessionId);
    assert r[..39] == raw[..39] && r[71..] == raw[71..];
  }

  lemma {:induction false} PayloadFields(now: nat, shortId: seq<byte>)
    ensures var p := AuthPayload(now, shortId);
            && p[..4] == Zeros(4) && p[8..16] == ShortIdField(shortId)
            && Be32(p[4], p[5], p[6], p[7]) == now % 0x1_0000_0000
  {
    var p, t := AuthPayload(now, shortId), PutBe32(now % 0x1_0000_0000);
    Be32Inverse(now % 0x1_0000_0000);
    assert p[4..8] == t;
    assert p[4] == t[0] && p[5] == t[1] && p[6] == t[2] && p[7] == t[3];
  }

  /** The verdict on a client that sealed `shortId` at time `sent`, by the two clocks and the list. */
  function ExpectedVerdict(c: Config, shortId: seq<byte>, sent: nat, now: nat): Verdict {
    var stamp := sent % 0x1_0000_0000;
    if ShortIdField(shortId) !in c.shortIds then Refused(ShortIdNotListed)
    else if Distance(now % 0x1_0000_0000, stamp) > c.maxTimeDiff % 0x1_0000_0000 then Refused(TimestampDrift)
    else Ok(Auth([0, 0, 0, 0], stamp, ShortIdField(shortId)))
  }

  lemma {:induction false} JudgeAuth(c: Config, shortId: seq<byte>, sent: nat, now: nat)
    ensures Judge(c, now, AuthPayload(sent, shortId)) == ExpectedVerdict(c, shortId, sent, now)
  {
    PayloadFields(sent, shortId);
    assert Zeros(4) == [0, 0, 0, 0];
  }

  /**
    The server's verdict on a hello whose session id the client sealed.  With both ends holding
    the same key it is decided by the short-id list and the clocks alone, and an accepted payload
    is exactly the client's time and short id.
   */
  lemma {:induction false} RealityAgreement(a: Aead, utf8: Utf8, c: Config, data: seq<byte>, info: Info,
                                            key: seq<byte>, shortId: seq<byte>, sent: nat, now: nat)
    requires Ideal(a) && ParseHello(utf8, data) == Some(info) && |info.sessionId| == 32 && |info.random| == 32
    requires SniOf(info) in c.serverNames && info.x25519Key.Some?
    requires key == c.deriveKey(info.x25519Key.value, info.random[..20])
    ensures |data| >= 71
    ensures var id := SealedSessionId(a, key, info.random, info.raw, info.sessionIdOffset, sent, shortId);
            var received := ParseHello(utf8, WithSessionId(data, id));
            && received.Some? && |received.value.random| == 32
            && Verify(a, c, received.value, now) == ExpectedVerdict(c, shortId, sent, now)
  {
    AcceptedIsLong(utf8, data, info);
    var id := SealedSessionId(a, key, info.random, info.raw, 39, sent, shortId);
    ParseIgnoresSessionId(utf8, data, info, id);
    SameAssociatedData(info.raw, id);
    var r := info.(raw := WithSessionId(info.raw, id), sessionId := id);
    assert a.open(key, r.random[20..32], ServerAad(r.raw, 39), r.sessionId) == Some(AuthPayload(sent, shortId));
    JudgeAuth(c, shortId, sent, now);
  }

  // -----------------------------------------------------------------------------------------
  // The verdict, check by check
  // -----------------------------------------------------------------------------------------

  /** The hello with the 32 bytes of its session id zeroed. */
  ghost predicate ZeroedHello(info: Info, aad: seq<byte>) {
    && |aad| == |info.raw|
    && forall k :: 0 <= k < |aad| ==>
         aad[k] == if info.sessionIdOffset <= k < info.sessionIdOffset + 32 then 0 else info.raw[k]
  }

  ghost predicate NameListed(c: Config, info: Info) {
    exists i :: 0 <= i < |c.serverNames| && c.serverNames[i] == if info.sni.None? then [] else info.sni.value
  }

  /** The first three checks pass and the hello is long enough to hold its session id. */
  ghost predicate Readable(c: Config, info: Info) {
    && NameListed(c, info) && info.x25519Key.Some? && |info.sessionId| == 32
    && |info.raw| >= info.sessionIdOffset + 32
  }

  /** What the session id opens to, under the derived key, the last 12 random bytes and the zeroed hello. */
  ghost function Opened(a: Aead, c: Config, info: Info, aad: seq<byte>): Option<seq<byte>>
    requires |info.random| == 32 && Readable(c, info)
  {
    a.open(c.deriveKey(info.x25519Key.value, info.random[..20]), info.random[20..], aad, info.sessionId)
  }

  /** The time in a payload is at most `maxTimeDiff` away from `now`, all as 32-bit numbers. */
  ghost predicate ClockAgrees(c: Config, now: nat, stamp: nat) {
    var n, most := now % 0x1_0000_0000, c.maxTimeDiff % 0x1_0000_0000;
    n <= stamp + most && stamp <= n + most
  }

  function StampOf(p: seq<byte>): nat
    requires |p| >= 16
  {
    0x100_0000 * (p[4] as int) + 0x1_0000 * (p[5] as int) + 0x100 * (p[6] as int) + p[7] as int
  }

  /** Refusals before anything is opened, each whatever comes after it. */
  lemma {:induction false} EarlyRefusals(a: Aead, c: Config, info: Info, now: nat)
    requires |info.random| == 32
    ensures var v := Verify(a, c, info, now);
            && (v == Refused(SniNotListed) <==> !NameListed(c, info))
            && (v == Refused(NoKeyShare) <==> NameListed(c, info) && info.x25519Key == None)
            && (v == Refused(BadSessionIdLength) <==>
                  NameListed(c, info) && info.x25519Key != None && |info.sessionId| != 32)
            && (v == Refused(AadTooShort) <==>
                  NameListed(c, info) && info.x25519Key != None && |info.sessionId| == 32
                  && |info.raw| < info.sessionIdOffset + 32)
  {
    var sni := if info.sni.None? then [] else info.sni.value;
    assert sni in c.serverNames <==> NameListed(c, info);
  }

  /**
    The rest of the verdict, by what the session id opens to: a payload is accepted exactly when it
    has 16 bytes, its short id is listed and its time agrees, and yields exactly its fields.
   */
  lemma {:induction false} VerdictExactly(a: Aead, c: Config, info: Info, aad: seq<byte>, now: nat)
    requires |info.random| == 32 && Readable(c, info) && ZeroedHello(info, aad)
    ensures Verify(a, c, info, now)
         == match Opened(a, c, info, aad)
            case None => Refused(DecryptionFailed)
            case Some(p) =>
              if |p| < 16 then Refused(AuthTooShort)
              else if !exists i :: 0 <= i < |c.shortIds| && c.shortIds[i] == p[8..16] then Refused(ShortIdNotListed)
              else if !ClockAgrees(c, now, StampOf(p)) then Refused(TimestampDrift)
              else Ok(Auth(p[..4], StampOf(p), p[8..16]))
  {
    EarlyRefusals(a, c, info, now);
    assert aad == ServerAad(info.raw, info.sessionIdOffset);
    assert info.random[20..32] == info.random[20..];
    var sni := if info.sni.None? then [] else info.sni.value;
    assert sni in c.serverNames;
  }

  // -----------------------------------------------------------------------------------------
  // Short ids
  // -----------------------------------------------------------------------------------------

  function HexValue(c: char): (v: Option<nat>)
    ensures v.Some? ==> v.value < 16
  {
    if '0' <= c <= '9' then Some(c as int - '0' as int)
    else if 'a' <= c <= 'f' then Some(c as int - 'a' as int + 10)
    else if 'A' <= c <= 'F' then Some(c as int - 'A' as int + 10)
    else None
  }

  function HexDecode(s: string): Option<seq<byte>>
    decreases |s|
  {
    if s == "" then Some([])
    else if |s| == 1 then None
    else
      var hi, lo, rest := HexValue(s[0]), HexValue(s[1]), HexDecode(s[2..]);
      if hi.None? || lo.None? || rest.None? then None
      else Some([16 * hi.value + lo.value] + rest.value)
  }

  function ParseShortId(s: string): Option<seq<byte>> {
    match HexDecode(s)
    case None => None
    case Some(bytes) => if |bytes| > 8 then None else Some(bytes + Zeros(8 - |bytes|))
  }

  function HexDigit(n: nat): char
    requires n < 16
  {
    "0123456789abcdef"[n]
  }

  lemma {:induction false} HexDigitValue(n: nat)
    requires n < 16
    ensures HexValue(HexDigit(n)) == Some(n)
  {
  }

  function HexEncode(bytes: seq<byte>): string {
    if bytes == [] then "" else [HexDigit(bytes[0] / 16), HexDigit(bytes[0] % 16)] + HexEncode(bytes[1..])
  }

  lemma {:induction false} HexInverse(bytes: seq<byte>)
    ensures HexDecode(HexEncode(bytes)) == Some(bytes)
  {
    if bytes != [] {
      HexInverse(bytes[1..]);
      var s := HexEncode(bytes);
      assert s[2..] == HexEncode(bytes[1..]);
      HexDigitValue(bytes[0] / 16);
      HexDigitValue(bytes[0] % 16);
      assert [bytes[0]] + bytes[1..] == bytes;
    }
  }

  /** A server configured with the hex form of a short id expects what a client with it seals,
      exactly when it has at most eight bytes; longer ones are refused, the client cuts them. */
  lemma {:induction false} ShortIdAgreement(bytes: seq<byte>)
    ensures ParseShortId(HexEncode(bytes)) == Some(ShortIdField(bytes)) <==> |bytes| <= 8
  {
    HexInverse(bytes);
    if |bytes| == 8 {
      assert bytes + Zeros(0) == bytes[..8];
    }
  }
}
