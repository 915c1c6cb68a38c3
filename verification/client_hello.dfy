/**
  The ClientHello parser of the Reality front end (section 4.1.2 of RFC 8446, section 3 of
  RFC 6066 for the server name, section 4.2.8 of RFC 8446 for key shares).

  `ParseHello` says what the cursor-moving method computes, on slices; the round trip is proved
  about it.  Whether bytes are valid UTF-8 is a parameter.
 */
module ClientHello {
  import opened Bytes

  const EXT_SERVER_NAME: nat := 0x0000
  const EXT_KEY_SHARE: nat := 0x0033
  const GROUP_X25519: nat := 0x001d

  datatype Info = Info(
    raw: seq<byte>,
    random: seq<byte>,
    sessionId: seq<byte>,
    sessionIdOffset: nat,
    sni: Option<seq<byte>>,
    x25519Key: Option<seq<byte>>,
    cipherSuites: seq<nat>)

  // -----------------------------------------------------------------------------------------
  // What the parser computes
  // -----------------------------------------------------------------------------------------

  /** The handshake header: type 1 and a 24-bit length. */
  function ParseHello(utf8: Utf8, data: seq<byte>): Option<Info> {
    if |data| < 4 || data[0] != 1 then None
    else
      var end := 4 + Be24(data[1], data[2], data[3]);
      if |data| < end then None else ParseBody(utf8, data[..end], data[4..end])
  }

  function Be24(a: byte, b: byte, c: byte): nat {
    65536 * (a as int) + Be16(b, c)
  }

  /** Version, random and session id. */
  function ParseBody(utf8: Utf8, raw: seq<byte>, body: seq<byte>): Option<Info> {
    if |body| < 35 then None
    else
      var idEnd := 35 + (body[34] as int);
      if |body| < idEnd then None
      else match ParseTail(utf8, body[idEnd..])
           case None => None
           case Some(t) => Some(Info(raw, body[2..34], body[35..idEnd], 39, t.sni, t.key, t.suites))
  }

  datatype Tail = Tail(suites: seq<nat>, sni: Option<seq<byte>>, key: Option<seq<byte>>)

  /** Cipher suites, compression methods and extensions. */
  function ParseTail(utf8: Utf8, b: seq<byte>): Option<Tail> {
    if |b| < 2 then None
    else
      var len := Be16(b[0], b[1]);
      if |b| < 2 + len || len % 2 != 0 || |b| < 3 + len then None
      else
        var suites := Pairs(b[2..2 + len]);
        var at := 3 + len + b[2 + len];
        if |b| <= at + 2 then Some(Tail(suites, None, None))
        else
          var found := ScanExtensions(utf8, b[at + 2..], Be16(b[at], b[at + 1]), Found(None, None));
          Some(Tail(suites, found.sni, found.key))
  }

  function Pairs(b: seq<byte>): seq<nat>
    requires |b| % 2 == 0
  {
    if b == [] then [] else [Be16(b[0], b[1])] + Pairs(b[2..])
  }

  datatype Found = Found(sni: Option<seq<byte>>, key: Option<seq<byte>>)

  /** What one extension adds: a later server name or key share replaces an earlier one. */
  function WithExtension(utf8: Utf8, f: Found, typ: nat, data: seq<byte>): Found {
    if typ == EXT_SERVER_NAME then f.(sni := ParseSni(utf8, data))
    else if typ == EXT_KEY_SHARE then f.(key := ParseKeyShare(data))
    else f
  }

  /** Reads extensions while four header bytes fit both the announced length and the message. */
  function ScanExtensions(utf8: Utf8, b: seq<byte>, announced: int, f: Found): Found
    decreases |b|
  {
    if announced < 4 || |b| < 4 then f
    else
      var len := Be16(b[2], b[3]);
      if |b| < 4 + len then f
      else ScanExtensions(utf8, b[4 + len..], announced - 4 - len,
                          WithExtension(utf8, f, Be16(b[0], b[1]), b[4..4 + len]))
  }

  /** The first name of the list, if it is a host name. */
  function ParseSni(utf8: Utf8, d: seq<byte>): Option<seq<byte>> {
    if |d| < 5 || d[2] != 0 then None
    else
      var len := Be16(d[3], d[4]);
      if |d| < 5 + len then None
      else if utf8(d[5..5 + len]) then Some(d[5..5 + len]) else None
  }

  function ParseKeyShare(d: seq<byte>): Option<seq<byte>> {
    if |d| < 2 then None else ScanShares(d[2..], Min(Be16(d[0], d[1]), |d| - 2))
  }

  /** The first x25519 entry of 32 bytes; an entry may run past the announced end, not past the data. */
  function ScanShares(b: seq<byte>, announced: int): Option<seq<byte>>
    decreases |b|
  {
    if announced < 4 || |b| < 4 then None
    else
      var len := Be16(b[2], b[3]);
      if |b| < 4 + len then None
      else if Be16(b[0], b[1]) == GROUP_X25519 && len == 32 then Some(b[4..36])
      else ScanShares(b[4 + len..], announced - 4 - len)
  }

  // -----------------------------------------------------------------------------------------
  // The code
  // -----------------------------------------------------------------------------------------

  lemma {:induction false} SharesFrom(d: seq<byte>, pos: nat, announced: int)
    requires pos + 4 <= |d| && announced >= 4
    ensures var group, len, next := Be16(d[pos], d[pos + 1]), Be16(d[pos + 2], d[pos + 3]), pos + 4;
            ScanShares(d[pos..], announced) ==
              (if next + len > |d| then None
               else if group == GROUP_X25519 && len == 32 then Some(d[next..next + 32])
               else ScanShares(d[next + len..], announced - 4 - len))
  {
    var len := Be16(d[pos + 2], d[pos + 3]);
    if pos + 4 + len <= |d| {
      DropSlice(d, pos, 4, 4 + len);
    }
  }

  /** One round of the scan of key shares: where the next entry is, or the result. */
  method NextShare(data: seq<byte>, pos: nat, ghost announced: int) returns (next: Option<nat>, key: Option<seq<byte>>)
    requires pos + 4 <= |data| && announced >= 4
    ensures next.None? ==> ScanShares(data[pos..], announced) == key
    ensures next.Some? ==> pos < next.value <= |data|
                           && ScanShares(data[pos..], announced)
                              == ScanShares(data[next.value..], announced - next.value + pos)
  {
    SharesFrom(data, pos, announced);
    var group := Be16(data[pos], data[pos + 1]);
    var keyLen := Be16(data[pos + 2], data[pos + 3]);
    var start := pos + 4;
    if start + keyLen > |data| {
      return None, None;
    }
    if group == GROUP_X25519 && keyLen == 32 {
      return None, Some(data[start..start + 32]);
    }
    return Some(start + keyLen), None;
  }

  method ParseKeyShareData(data: seq<byte>) returns (key: Option<seq<byte>>)
    ensures key == ParseKeyShare(data)
  {
    if |data| < 2 {
      return None;
    }
    var listLen := Be16(data[0], data[1]);
    var pos := 2;
    var end := Min(2 + listLen, |data|);
    ghost var target := ParseKeyShare(data);
    while pos + 4 <= end
      invariant 2 <= pos <= |data| && end <= |data|
      invariant target == ScanShares(data[pos..], end - pos)
      decreases |data| - pos
    {
      var next, found := NextShare(data, pos, end - pos);
      if next.None? {
        return found;
      }
      pos := next.value;
    }
    assert ScanShares(data[pos..], end - pos) == None;
    key := None;
  }

  lemma {:induction false} ExtensionsFrom(utf8: Utf8, b: seq<byte>, pos: nat, announced: int, f: Found)
    requires pos + 4 <= |b| && announced >= 4
    ensures var typ, len, next := Be16(b[pos], b[pos + 1]), Be16(b[pos + 2], b[pos + 3]), pos + 4;
            ScanExtensions(utf8, b[pos..], announced, f) ==
              (if next + len > |b| then f
               else ScanExtensions(utf8, b[next + len..], announced - 4 - len,
                                   WithExtension(utf8, f, typ, b[next..next + len])))
  {
    var len := Be16(b[pos + 2], b[pos + 3]);
    if pos + 4 + len <= |b| {
      DropSlice(b, pos, 4, 4 + len);
    }
  }

  /** One round of the extension loop: where the next extension is and what has been found, or the end. */
  method NextExtension(utf8: Utf8, body: seq<byte>, pos: nat, ghost announced: int, f: Found)
    returns (next: Option<nat>, g: Found)
    requires pos + 4 <= |body| && announced >= 4
    ensures next.None? ==> ScanExtensions(utf8, body[pos..], announced, f) == f
    ensures next.Some? ==> pos < next.value <= |body|
                           && ScanExtensions(utf8, body[pos..], announced, f)
                              == ScanExtensions(utf8, body[next.value..], announced - next.value + pos, g)
  {
    ExtensionsFrom(utf8, body, pos, announced, f);
    var extType := Be16(body[pos], body[pos + 1]);
    var extDataLen := Be16(body[pos + 2], body[pos + 3]);
    var start := pos + 4;
    if start + extDataLen > |body| {
      return None, f;
    }
    var extData := body[start..start + extDataLen];
    g := f;
    if extType == EXT_SERVER_NAME {
      g := f.(sni := ParseSni(utf8, extData));
    } else if extType == EXT_KEY_SHARE {
      var key := ParseKeyShareData(extData);
      g := f.(key := key);
    }
    assert g == WithExtension(utf8, f, extType, extData);
    next := Some(start + extDataLen);
  }

  /** The extension loop, over what follows the length of the extension list. */
  method ParseExtensions(utf8: Utf8, body: seq<byte>, extEnd: nat) returns (f: Found)
    ensures f == ScanExtensions(utf8, body, extEnd, Found(None, None))
  {
    var pos := 0;
    f := Found(None, None);
    ghost var target := ScanExtensions(utf8, body, extEnd, f);
    assert body[0..] == body;
    while pos + 4 <= extEnd && pos + 4 <= |body|
      invariant 0 <= pos <= |body|
      invariant target == ScanExtensions(utf8, body[pos..], extEnd - pos, f)
      decreases |body| - pos
    {
      var next, g := NextExtension(utf8, body, pos, extEnd - pos, f);
      if next.None? {
        return;
      }
      pos, f := next.value, g;
    }
  }

  method ParseSuites(list: seq<byte>) returns (suites: seq<nat>)
    requires |list| % 2 == 0
    ensures suites == Pairs(list)
  {
    suites := [];
    var i := 0;
    assert list[0..] == list;
    while i < |list|
      invariant 0 <= i <= |list| && i % 2 == 0
      invariant Pairs(list) == suites + Pairs(list[i..])
    {
      DropSlice(list, i, 2, 2);
      Assoc(suites, [Be16(list[i], list[i + 1])], Pairs(list[i + 2..]));
      suites := suites + [Be16(list[i], list[i + 1])];
      i := i + 2;
    }
  }

  /** What follows the session id. */
  method ParseBodyTail(utf8: Utf8, body: seq<byte>) returns (r: Option<Tail>)
    ensures r == ParseTail(utf8, body)
  {
    var pos := 0;
    if |body| < pos + 2 {
      return None;
    }
    var csLen := Be16(body[pos], body[pos + 1]);
    pos := pos + 2;
    if |body| < pos + csLen || csLen % 2 != 0 {
      return None;
    }
    var suites := ParseSuites(body[pos..pos + csLen]);
    pos := pos + csLen;
    if |body| < pos + 1 {
      return None;
    }
    pos := pos + 1 + body[pos];
    if |body| > pos + 2 {
      var found := ParseExtensions(utf8, body[pos + 2..], Be16(body[pos], body[pos + 1]));
      return Some(Tail(suites, found.sni, found.key));
    }
    return Some(Tail(suites, None, None));
  }

  method ParseHelloBody(utf8: Utf8, raw: seq<byte>, body: seq<byte>) returns (r: Option<Info>)
    ensures r == ParseBody(utf8, raw, body)
  {
    var pos := 0;
    if |body| < pos + 2 {
      return None;
    }
    pos := pos + 2;
    if |body| < pos + 32 {
      return None;
    }
    var random := body[pos..pos + 32];
    pos := pos + 32;
    if |body| < pos + 1 {
      return None;
    }
    var sessionIdLen: int := body[pos];
    pos := pos + 1;
    if |body| < pos + sessionIdLen {
      return None;
    }
    var sessionId := body[pos..pos + sessionIdLen];
    pos := pos + sessionIdLen;
    var tail := ParseBodyTail(utf8, body[pos..]);
    match tail
    case None => r := None;
    case Some(t) => r := Some(Info(raw, random, sessionId, 4 + 2 + 32 + 1, t.sni, t.key, t.suites));
  }

  method ParseClientHello(utf8: Utf8, data: seq<byte>) returns (r: Option<Info>)
    ensures r == ParseHello(utf8, data)
  {
    if |data| < 4 {
      return None;
    }
    if data[0] != 1 {
      return None;
    }
    var hsLen := Be24(data[1], data[2], data[3]);
    if |data| < 4 + hsLen {
      return None;
    }
    r := ParseHelloBody(utf8, data[..4 + hsLen], data[4..4 + hsLen]);
  }

  // -----------------------------------------------------------------------------------------
  // Well-formed hellos
  // -----------------------------------------------------------------------------------------

  datatype NameEntry = NameEntry(nameType: byte, name: seq<byte>)
  datatype ShareEntry = ShareEntry(group: nat, key: seq<byte>)

  datatype Extension =
    | ServerNames(names: seq<NameEntry>)
    | KeyShares(shares: seq<ShareEntry>)
    | OtherExtension(typ: nat, data: seq<byte>)

  datatype Hello = Hello(
    version: seq<byte>,
    random: seq<byte>,
    sessionId: seq<byte>,
    suites: seq<nat>,
    compression: seq<byte>,
    extensions: seq<Extension>)

  /** A length in two bytes, then the bytes. */
  function Vec16(b: seq<byte>): seq<byte> {
    PutBe16(|b|) + b
  }

  /** A two-byte tag, then a vector. */
  function Tagged(tag: nat, b: seq<byte>): seq<byte> {
    PutBe16(tag) + Vec16(b)
  }

  function NameBytes(names: seq<NameEntry>): seq<byte> {
    if names == [] then [] else [names[0].nameType] + Vec16(names[0].name) + NameBytes(names[1..])
  }

  function ShareBytes(shares: seq<ShareEntry>): seq<byte> {
    if shares == [] then [] else Tagged(shares[0].group, shares[0].key) + ShareBytes(shares[1..])
  }

  function ExtensionType(e: Extension): nat {
    match e
    case ServerNames(_) => 0x0000
    case KeyShares(_) => 0x0033
    case OtherExtension(typ, _) => typ
  }

  function ExtensionData(e: Extension): seq<byte> {
    match e
    case ServerNames(names) => Vec16(NameBytes(names))
    case KeyShares(shares) => Vec16(ShareBytes(shares))
    case OtherExtension(_, data) => data
  }

  function ExtensionBytes(es: seq<Extension>): seq<byte> {
    if es == [] then []
    else Tagged(ExtensionType(es[0]), ExtensionData(es[0])) + ExtensionBytes(es[1..])
  }

  function SuiteBytes(suites: seq<nat>): seq<byte> {
    if suites == [] then [] else PutBe16(suites[0]) + SuiteBytes(suites[1..])
  }

  function TailBytes(h: Hello): seq<byte> {
    Vec16(SuiteBytes(h.suites)) + ([|h.compression| % 256] + h.compression + Vec16(ExtensionBytes(h.extensions)))
  }

  function BodyBytes(h: Hello): seq<byte> {
    h.version + h.random + [|h.sessionId| % 256] + h.sessionId + TailBytes(h)
  }

  function HelloBytes(h: Hello): seq<byte> {
    var body := BodyBytes(h);
    [1, (|body| / 65536) % 256, (|body| / 256) % 256, |body| % 256] + body
  }

  ghost predicate WellFormedExtension(e: Extension) {
    && |ExtensionData(e)| < 65536 && ExtensionType(e) < 65536
    && match e
       case ServerNames(names) => forall i :: 0 <= i < |names| ==> |names[i].name| < 65536
       case KeyShares(shares) =>
         forall i :: 0 <= i < |shares| ==> shares[i].group < 65536 && |shares[i].key| < 65536
       case OtherExtension(typ, _) => typ != 0x0000 && typ != 0x0033
  }

  /** Every vector fits its length field. */
  ghost predicate WellFormed(h: Hello) {
    && |h.version| == 2 && |h.random| == 32 && |h.sessionId| < 256 && |h.compression| < 256
    && |SuiteBytes(h.suites)| < 65536 && (forall i :: 0 <= i < |h.suites| ==> h.suites[i] < 65536)
    && |ExtensionBytes(h.extensions)| < 65536
    && (forall i :: 0 <= i < |h.extensions| ==> WellFormedExtension(h.extensions[i]))
    && |BodyBytes(h)| < 0x100_0000
  }

  // What a hello says, independently of how it is scanned.

  function FirstX25519(shares: seq<ShareEntry>): Option<seq<byte>> {
    if shares == [] then None
    else if shares[0].group == 0x001d && |shares[0].key| == 32 then Some(shares[0].key)
    else FirstX25519(shares[1..])
  }

  function HostName(utf8: Utf8, names: seq<NameEntry>): Option<seq<byte>> {
    if names != [] && names[0].nameType == 0 && utf8(names[0].name) then Some(names[0].name) else None
  }

  /** The host name of the last server-name extension. */
  function LastSni(utf8: Utf8, es: seq<Extension>, otherwise: Option<seq<byte>>): Option<seq<byte>> {
    if es == [] then otherwise
    else match es[|es| - 1]
         case ServerNames(names) => HostName(utf8, names)
         case _ => LastSni(utf8, es[..|es| - 1], otherwise)
  }

  /** The first 32-byte x25519 entry of the last key-share extension. */
  function LastKey(es: seq<Extension>, otherwise: Option<seq<byte>>): Option<seq<byte>> {
    if es == [] then otherwise
    else match es[|es| - 1]
         case KeyShares(shares) => FirstX25519(shares)
         case _ => LastKey(es[..|es| - 1], otherwise)
  }

  // -----------------------------------------------------------------------------------------
  // Round trip
  // -----------------------------------------------------------------------------------------

  lemma {:induction false} SuitesInverse(suites: seq<nat>)
    requires forall i :: 0 <= i < |suites| ==> suites[i] < 65536
    ensures |SuiteBytes(suites)| % 2 == 0 && Pairs(SuiteBytes(suites)) == suites
  {
    if suites != [] {
      Be16Inverse(suites[0]);
      SuitesInverse(suites[1..]);
      assert SuiteBytes(suites)[2..] == SuiteBytes(suites[1..]);
    }
  }

  /** Reading back the head of a list of tagged vectors. */
  lemma {:induction false} TaggedInverse(tag: nat, d: seq<byte>, rest: seq<byte>)
    requires tag < 65536 && |d| < 65536
    ensures var b := Tagged(tag, d) + rest;
            && |b| == 4 + |d| + |rest|
            && Be16(b[0], b[1]) == tag && Be16(b[2], b[3]) == |d|
            && b[4..4 + |d|] == d && b[4 + |d|..] == rest
  {
    Be16Exact(tag);
    Be16Exact(|d|);
    TaggedSlices(PutBe16(tag), PutBe16(|d|), d, rest);
  }

  lemma {:induction false} TaggedSlices(p: seq<byte>, q: seq<byte>, d: seq<byte>, rest: seq<byte>)
    requires |p| == 2 && |q| == 2
    ensures var b := p + (q + d) + rest;
            && |b| == 4 + |d| + |rest|
            && Be16(b[0], b[1]) == Be16(p[0], p[1]) && Be16(b[2], b[3]) == Be16(q[0], q[1])
            && b[4..4 + |d|] == d && b[4 + |d|..] == rest
  {
  }

  /** Where a scan ends: at the announced end, or at an entry whose header or data is cut short. */
  ghost predicate Ends(tail: seq<byte>, announced: int) {
    announced < 4 || |tail| < 4 || |tail| < 4 + 256 * (tail[2] as int) + tail[3] as int
  }

  lemma {:induction false} ScanOneShare(group: nat, key: seq<byte>, rest: seq<byte>, announced: int)
    requires group < 65536 && |key| < 65536 && announced >= 4
    ensures ScanShares(Tagged(group, key) + rest, announced)
         == if group == GROUP_X25519 && |key| == 32 then Some(key) else ScanShares(rest, announced - 4 - |key|)
  {
    TaggedInverse(group, key, rest);
  }

  /** Of whole entries with anything behind their end, the first 32-byte x25519 key. */
  lemma {:induction false} SharesThenTail(shares: seq<ShareEntry>, tail: seq<byte>, announced: int)
    requires forall i :: 0 <= i < |shares| ==> shares[i].group < 65536 && |shares[i].key| < 65536
    requires announced >= |ShareBytes(shares)| && Ends(tail, announced - |ShareBytes(shares)|)
    ensures ScanShares(ShareBytes(shares) + tail, announced) == FirstX25519(shares)
    decreases |shares|
  {
    if shares == [] {
      assert ShareBytes(shares) + tail == tail;
    } else {
      var s, rest := shares[0], ShareBytes(shares[1..]);
      assert |ShareBytes(shares)| == 4 + |s.key| + |rest|;
      Assoc(Tagged(s.group, s.key), rest, tail);
      ScanOneShare(s.group, s.key, rest + tail, announced);
      SharesThenTail(shares[1..], tail, announced - 4 - |s.key|);
    }
  }

  lemma {:induction false} SharesInverse(shares: seq<ShareEntry>)
    requires forall i :: 0 <= i < |shares| ==> shares[i].group < 65536 && |shares[i].key| < 65536
    ensures ScanShares(ShareBytes(shares), |ShareBytes(shares)|) == FirstX25519(shares)
  {
    SharesThenTail(shares, [], |ShareBytes(shares)|);
    assert ShareBytes(shares) + [] == ShareBytes(shares);
  }

  lemma {:induction false} Vec16Inverse(b: seq<byte>)
    requires |b| < 65536
    ensures var v := Vec16(b); |v| == 2 + |b| && Be16(v[0], v[1]) == |b| && v[2..] == b
  {
    Be16Exact(|b|);
  }

  lemma {:induction false} SniInverse(utf8: Utf8, names: seq<NameEntry>)
    requires |NameBytes(names)| < 65536 && forall i :: 0 <= i < |names| ==> |names[i].name| < 65536
    ensures ParseSni(utf8, Vec16(NameBytes(names))) == HostName(utf8, names)
  {
    if names != [] {
      var n, rest := names[0], NameBytes(names[1..]);
      var d := Vec16(NameBytes(names));
      Be16Inverse(|n.name|);
      assert d == PutBe16(|NameBytes(names)|) + [n.nameType] + PutBe16(|n.name|) + n.name + rest;
      assert d[2] == n.nameType && d[3] == PutBe16(|n.name|)[0] && d[4] == PutBe16(|n.name|)[1];
      assert d[5..5 + |n.name|] == n.name;
    }
  }

  lemma {:induction false} ExtensionInverse(utf8: Utf8, f: Found, e: Extension)
    requires WellFormedExtension(e)
    ensures WithExtension(utf8, f, ExtensionType(e), ExtensionData(e))
         == Found(LastSni(utf8, [e], f.sni), LastKey([e], f.key))
  {
    assert [e][..0] == [];
    match e {
      case ServerNames(names) => SniInverse(utf8, names);
      case KeyShares(shares) =>
        Vec16Inverse(ShareBytes(shares));
        SharesInverse(shares);
      case OtherExtension(_, _) =>
    }
  }

  lemma {:induction false} LastOfAppend(utf8: Utf8, e: Extension, es: seq<Extension>, f: Found)
    ensures LastSni(utf8, [e] + es, f.sni) == LastSni(utf8, es, LastSni(utf8, [e], f.sni))
    ensures LastKey([e] + es, f.key) == LastKey(es, LastKey([e], f.key))
    decreases |es|
  {
    if es == [] {
      assert [e] + es == [e];
    } else {
      var n := |es| - 1;
      assert ([e] + es)[..|es|] == [e] + es[..n];
      LastOfAppend(utf8, e, es[..n], f);
    }
  }

  lemma {:induction false} ScanOne(utf8: Utf8, typ: nat, data: seq<byte>, rest: seq<byte>, announced: int, f: Found)
    requires typ < 65536 && |data| < 65536 && announced >= 4
    ensures ScanExtensions(utf8, Tagged(typ, data) + rest, announced, f)
         == ScanExtensions(utf8, rest, announced - 4 - |data|, WithExtension(utf8, f, typ, data))
  {
    TaggedInverse(typ, data, rest);
  }

  /** Of whole extensions with anything behind their end, the last server name and key share. */
  lemma {:induction false} ExtensionsThenTail(utf8: Utf8, es: seq<Extension>, tail: seq<byte>, announced: int, f: Found)
    requires forall i :: 0 <= i < |es| ==> WellFormedExtension(es[i])
    requires announced >= |ExtensionBytes(es)| && Ends(tail, announced - |ExtensionBytes(es)|)
    ensures ScanExtensions(utf8, ExtensionBytes(es) + tail, announced, f)
         == Found(LastSni(utf8, es, f.sni), LastKey(es, f.key))
    decreases |es|
  {
    if es == [] {
      assert ExtensionBytes(es) + tail == tail;
    } else {
      var e, more := es[0], es[1..];
      var typ, data, rest := ExtensionType(e), ExtensionData(e), ExtensionBytes(more);
      assert WellFormedExtension(e);
      var g := WithExtension(utf8, f, typ, data);
      assert ExtensionBytes(es) == Tagged(typ, data) + rest && |Tagged(typ, data)| == 4 + |data|;
      Assoc(Tagged(typ, data), rest, tail);
      ScanOne(utf8, typ, data, rest + tail, announced, f);
      ExtensionsThenTail(utf8, more, tail, announced - 4 - |data|, g);
      OneMore(utf8, es, f);
    }
  }

  lemma {:induction false} OneMore(utf8: Utf8, es: seq<Extension>, f: Found)
    requires es != [] && WellFormedExtension(es[0])
    ensures var g := WithExtension(utf8, f, ExtensionType(es[0]), ExtensionData(es[0]));
            LastSni(utf8, es[1..], g.sni) == LastSni(utf8, es, f.sni) && LastKey(es[1..], g.key) == LastKey(es, f.key)
  {
    ExtensionInverse(utf8, f, es[0]);
    LastOfAppend(utf8, es[0], es[1..], f);
    assert es == [es[0]] + es[1..];
  }

  lemma {:induction false} ExtensionsInverse(utf8: Utf8, es: seq<Extension>, f: Found)
    requires forall i :: 0 <= i < |es| ==> WellFormedExtension(es[i])
    ensures ScanExtensions(utf8, ExtensionBytes(es), |ExtensionBytes(es)|, f)
         == Found(LastSni(utf8, es, f.sni), LastKey(es, f.key))
  {
    ExtensionsThenTail(utf8, es, [], |ExtensionBytes(es)|, f);
    assert ExtensionBytes(es) + [] == ExtensionBytes(es);
  }

  lemma {:induction false} TailSlices(v: seq<byte>, c: seq<byte>, w: seq<byte>)
    requires |v| >= 2 && |w| >= 2 && |c| < 256
    ensures var b, at := v + ([|c| % 256] + c + w), |v| + 1 + |c|;
            && |b| == at + |w| && b[0] == v[0] && b[1] == v[1] && b[2..|v|] == v[2..] && b[|v|] == |c|
            && b[at] == w[0] && b[at + 1] == w[1] && b[at + 2..] == w[2..]
  {
    var front := v + ([|c| % 256] + c);
    assert v + ([|c| % 256] + c + w) == front + w;
  }

  /** The tail parser on any bytes of the right layout. */
  lemma {:induction false} TailOf(utf8: Utf8, b: seq<byte>, s: seq<byte>, c: nat, x: seq<byte>)
    requires |s| % 2 == 0 && |b| == 5 + |s| + c + |x|
    requires Be16(b[0], b[1]) == |s| && b[2..2 + |s|] == s && b[2 + |s|] == c
    requires var at := 3 + |s| + c; Be16(b[at], b[at + 1]) == |x| && b[at + 2..] == x
    ensures var f := ScanExtensions(utf8, x, |x|, Found(None, None));
            ParseTail(utf8, b) == Some(Tail(Pairs(s), f.sni, f.key))
  {
  }

  lemma {:induction false} TailInverse(utf8: Utf8, h: Hello)
    requires WellFormed(h)
    ensures ParseTail(utf8, TailBytes(h))
         == Some(Tail(h.suites, LastSni(utf8, h.extensions, None), LastKey(h.extensions, None)))
  {
    var s, c, x := SuiteBytes(h.suites), h.compression, ExtensionBytes(h.extensions);
    SuitesInverse(h.suites);
    Vec16Inverse(s);
    Vec16Inverse(x);
    TailSlices(Vec16(s), c, Vec16(x));
    TailOf(utf8, TailBytes(h), s, |c|, x);
    ExtensionsInverse(utf8, h.extensions, Found(None, None));
  }

  lemma {:induction false} BodySlices(v: seq<byte>, r: seq<byte>, s: seq<byte>, tail: seq<byte>)
    requires |v| == 2 && |r| == 32 && |s| < 256
    ensures var b := v + r + [|s| % 256] + s + tail;
            && |b| == 35 + |s| + |tail| && b[2..34] == r && b[34] == |s|
            && b[35..35 + |s|] == s && b[35 + |s|..] == tail
  {
  }

  lemma {:induction false} Be24Inverse(n: nat)
    requires n < 0x100_0000
    ensures Be24((n / 65536) % 256, (n / 256) % 256, n % 256) == n
  {
    Digits(n);
    var high := n / 65536;
    assert n == 65536 * high + n % 65536;
    OneByte(high);
  }

  lemma {:induction false} OneByte(n: nat)
    requires n < 256
    ensures n % 256 == n
  {
  }

  /** Every well-formed hello, whatever follows it, is parsed to exactly what it says. */
  lemma {:induction false} HelloInverse(utf8: Utf8, h: Hello, rest: seq<byte>)
    requires WellFormed(h)
    ensures ParseHello(utf8, HelloBytes(h) + rest)
         == Some(Info(HelloBytes(h), h.random, h.sessionId, 39, LastSni(utf8, h.extensions, None),
                      LastKey(h.extensions, None), h.suites))
  {
    var body, raw := BodyBytes(h), HelloBytes(h);
    var head := [1, (|body| / 65536) % 256, (|body| / 256) % 256, |body| % 256];
    Be24Inverse(|body|);
    HelloSlices(head, body, rest);
    BodySlices(h.version, h.random, h.sessionId, TailBytes(h));
    TailInverse(utf8, h);
  }

  /** A hello cut short anywhere is refused. */
  lemma {:induction false} TruncatedHello(utf8: Utf8, h: Hello, k: nat)
    requires WellFormed(h) && k < |HelloBytes(h)|
    ensures ParseHello(utf8, HelloBytes(h)[..k]) == None
  {
    var body := BodyBytes(h);
    Be24Inverse(|body|);
    if k >= 4 {
      var d := HelloBytes(h)[..k];
      assert d[1] == (|body| / 65536) % 256 && d[2] == (|body| / 256) % 256 && d[3] == |body| % 256;
    }
  }

  /**
    Which inputs are accepted at all, by absolute positions: type 1, all announced bytes present,
    room for random, session id and an even list of suites with a compression length behind it.
   */
  lemma {:induction false} AcceptedHellos(utf8: Utf8, data: seq<byte>)
    ensures ParseHello(utf8, data).Some? <==>
              && |data| >= 4 && data[0] == 1
              && var end := 4 + 65536 * (data[1] as int) + 256 * (data[2] as int) + data[3] as int;
                 && 39 <= end <= |data|
                 && var at := 39 + data[38] as int;
                    && at + 2 <= end
                    && var suites := 256 * (data[at] as int) + data[at + 1] as int;
                       suites % 2 == 0 && at + 2 + suites < end
  {
    if |data| >= 4 && data[0] == 1 {
      var end := 4 + Be24(data[1], data[2], data[3]);
      if 39 <= end <= |data| {
        var body, at := data[4..end], 39 + data[38] as int;
        assert body[34] == data[38];
        if at + 2 <= end {
          var tail := body[at - 4..];
          assert tail[0] == data[at] && tail[1] == data[at + 1];
        }
      }
    }
  }

  lemma {:induction false} HelloSlices(head: seq<byte>, body: seq<byte>, rest: seq<byte>)
    requires |head| == 4
    ensures var d, end := head + body + rest, 4 + |body|;
            && |d| >= end && d[0] == head[0] && d[1] == head[1] && d[2] == head[2] && d[3] == head[3]
            && d[..end] == head + body && d[4..end] == body
  {
  }
}
