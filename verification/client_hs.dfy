/**
  The client's wait for a ServerHello over TCP: at most one HelloRetryRequest, then the checks on
  version, extensions and cipher suite (sections 4.1.3 and 4.1.4 of RFC 8446).  Handlers consume
  a state and return the next one; an error or a failed `unwrap` ends the run.
 */
module ClientHandshake {
  import opened Bytes
  import opened Transcripts

  datatype Version = Tls12 | Tls13 | OtherVersion(number: nat)

  datatype Suite = Suite(id: nat, version: Version, hash: Provider)

  datatype Config = Config(versions: set<Version>, suites: seq<Suite>, groups: set<nat>, alpn: seq<seq<byte>>)

  predicate Supports(c: Config, v: Version) {
    !v.OtherVersion? && v in c.versions && exists i :: 0 <= i < |c.suites| && c.suites[i].version == v
  }

  /** The first configured suite with this id; every configured suite is offered over TCP. */
  function FindSuite(suites: seq<Suite>, id: nat): (r: Option<Suite>)
    ensures r.Some? ==> r.value in suites && r.value.id == id
    ensures r.None? ==> forall i :: 0 <= i < |suites| ==> suites[i].id != id
  {
    if suites == [] then None else if suites[0].id == id then Some(suites[0]) else FindSuite(suites[1..], id)
  }

  /** A received message; getters of the parsed form are fields, extension types are numbers. */
  datatype Message =
    | ServerHello(
        legacyVersion: Version,
        supportedVersion: Option<Version>,
        suite: nat,
        nullCompression: bool,
        extensions: seq<nat>,
        alpn: Option<seq<byte>>,
        uncompressedPoints: Option<bool>,
        encoded: seq<byte>)
    | HelloRetryRequest(
        sessionId: seq<byte>,
        suite: nat,
        cookie: Option<seq<byte>>,
        group: Option<nat>,
        supportedVersion: Option<Version>,
        extensions: seq<nat>,
        aligned: bool,
        encoded: seq<byte>)
    | OtherMessage

  datatype Failure =
    | InappropriateMessage
    | OfferedEarlyDataWithOldProtocolVersion
    | SelectedTls12UsingTls13VersionExtension
    | ServerTlsVersionIsDisabledByOurConfig
    | ServerDoesNotSupportTls12Or13
    | SelectedUnofferedCompression
    | DuplicateServerHelloExtensions
    | UnsolicitedServerHelloExtension
    | SelectedUnofferedApplicationProtocol
    | ServerHelloMustOfferUncompressedEcPoints
    | SelectedUnofferedCipherSuite
    | SelectedUnusableCipherSuiteForVersion
    | SelectedDifferentCipherSuiteAfterRetry
    | KeyEpochWithPendingFragment
    | IllegalHelloRetryRequestWithOfferedGroup
    | IllegalHelloRetryRequestWithEmptyCookie
    | ServerSentHelloRetryRequestWithUnknownExtension
    | DuplicateHelloRetryRequestExtensions
    | IllegalHelloRetryRequestWithNoChanges
    | IllegalHelloRetryRequestWithWrongSessionId
    | IllegalHelloRetryRequestWithUnsupportedVersion
    | IllegalHelloRetryRequestWithUnofferedCipherSuite
    | IllegalHelloRetryRequestWithUnofferedNamedGroup
    | FailedToGetRandomBytes
    | Panic

  const RENEGOTIATION_INFO: nat := 0xff01
  const KEY_SHARE: nat := 0x0033
  const SUPPORTED_VERSIONS: nat := 0x002b
  const COOKIE: nat := 0x002c
  const ALPN: nat := 0x0010
  const EC_POINT_FORMATS: nat := 0x000b

  /** A message as parsing yields it: every getter searches the list of extensions. */
  ghost predicate FromWire(m: Message) {
    match m
    case ServerHello(_, version, _, _, extensions, alpn, points, _) =>
      && (version.Some? <==> SUPPORTED_VERSIONS in extensions)
      && (alpn.Some? ==> ALPN in extensions)
      && (points.Some? <==> EC_POINT_FORMATS in extensions)
    case HelloRetryRequest(_, _, cookie, group, version, extensions, _, _) =>
      && (cookie.Some? <==> COOKIE in extensions)
      && (group.Some? <==> KEY_SHARE in extensions)
      && (version.Some? <==> SUPPORTED_VERSIONS in extensions)
    case OtherMessage => true
  }

  /** A ClientHello that was sent: its encoding and its extension types. */
  datatype Hello = Hello(encoded: seq<byte>, extensions: seq<nat>)

  /** What a client brings along: configuration, ids, and the outcome of building hellos and keys. */
  datatype Client = Client(
    config: Config,
    sessionId: seq<byte>,
    firstGroup: nat,
    firstHello: Hello,
    secondHello: (Message, nat) -> Hello,
    groupStarts: nat -> bool,
    earlyData: bool,
    hash: HashFn)

  /** `ExpectServerHello`: the transcript buffer, the key share sent, and a retry's suite. */
  datatype Expect = Expect(
    buffer: seq<byte>,
    keyShare: Option<nat>,
    suite: Option<Suite>,
    earlyTraffic: bool,
    sentExtensions: seq<nat>)

  datatype Phase =
    | HelloOrRetry(x: Expect)
    | HelloOnly(x: Expect)
    | Accepted(version: Version, suite: Suite, provider: Provider, transcript: seq<byte>)
    | Failed(why: Failure)

  predicate HasDuplicate(xs: seq<nat>) {
    exists i, j :: 0 <= i < j < |xs| && xs[i] == xs[j]
  }

  predicate Unsolicited(x: Expect, received: seq<nat>) {
    exists i :: 0 <= i < |received| && received[i] !in x.sentExtensions && received[i] != RENEGOTIATION_INFO
  }

  predicate UnknownToRetry(extensions: seq<nat>) {
    exists i :: 0 <= i < |extensions| && extensions[i] !in {KEY_SHARE, SUPPORTED_VERSIONS, COOKIE}
  }

  function StartHandshake(c: Client): Phase {
    var share := if Supports(c.config, Tls13) then Some(c.firstGroup) else None;
    EmitClientHello(c, [], None, share, c.firstHello, false, c.earlyData)
  }

  /** Sends a hello and chooses the state: a retry can follow only a first TLS 1.3 hello. */
  function EmitClientHello(c: Client, buffer: seq<byte>, suite: Option<Suite>, share: Option<nat>,
                           hello: Hello, isRetry: bool, early: bool): Phase
  {
    var x := Expect(buffer + hello.encoded, share, suite, early, hello.extensions);
    if Supports(c.config, Tls13) && !isRetry then HelloOrRetry(x) else HelloOnly(x)
  }

  /** The version a ServerHello names: its extension counts only under the TLS 1.2 legacy version. */
  function NamedVersion(m: Message): Version
    requires m.ServerHello?
  {
    if m.legacyVersion.Tls12? && m.supportedVersion.Some? then m.supportedVersion.value else m.legacyVersion
  }

  /** The version a ServerHello selects, or why it is refused. */
  function SelectVersion(c: Client, x: Expect, m: Message): (r: (Option<Version>, Failure))
    requires m.ServerHello?
    ensures r.0.Some? ==> Supports(c.config, r.0.value)
  {
    match NamedVersion(m)
    case Tls13 => if Supports(c.config, Tls13) then (Some(Tls13), Panic)
                  else (None, ServerTlsVersionIsDisabledByOurConfig)
    case Tls12 => if !Supports(c.config, Tls12) then (None, ServerTlsVersionIsDisabledByOurConfig)
                  else if x.earlyTraffic then (None, OfferedEarlyDataWithOldProtocolVersion)
                  else if m.supportedVersion.Some? then (None, SelectedTls12UsingTls13VersionExtension)
                  else (Some(Tls12), Panic)
    case OtherVersion(_) => (None, ServerDoesNotSupportTls12Or13)
  }

  function HandleServerHello(c: Client, x: Expect, m: Message): Phase
    requires m.ServerHello?
  {
    var (version, why) := SelectVersion(c, x, m);
    if version.None? then Failed(why)
    else if !m.nullCompression then Failed(SelectedUnofferedCompression)
    else if HasDuplicate(m.extensions) then Failed(DuplicateServerHelloExtensions)
    else if Unsolicited(x, m.extensions) then Failed(UnsolicitedServerHelloExtension)
    else if !version.value.Tls13? && m.alpn.Some? && m.alpn.value !in c.config.alpn then
      Failed(SelectedUnofferedApplicationProtocol)
    else if m.uncompressedPoints == Some(false) then Failed(ServerHelloMustOfferUncompressedEcPoints)
    else match FindSuite(c.config.suites, m.suite)
         case None => Failed(SelectedUnofferedCipherSuite)
         case Some(suite) =>
           if version.value != suite.version then Failed(SelectedUnusableCipherSuiteForVersion)
           else if x.suite.Some? && x.suite.value != suite then Failed(SelectedDifferentCipherSuiteAfterRetry)
           else if suite.version.Tls13? && x.keyShare.None? then Failed(Panic)
           else Accepted(version.value, suite, suite.hash, x.buffer + m.encoded)
  }

  function HandleHelloRetryRequest(c: Client, x: Expect, m: Message): Phase
    requires m.HelloRetryRequest?
  {
    if !m.aligned then Failed(KeyEpochWithPendingFragment)
    else if x.keyShare.None? then Failed(Panic)
    else if m.cookie.None? && m.group == x.keyShare then Failed(IllegalHelloRetryRequestWithOfferedGroup)
    else if m.cookie == Some([]) then Failed(IllegalHelloRetryRequestWithEmptyCookie)
    else if UnknownToRetry(m.extensions) then Failed(ServerSentHelloRetryRequestWithUnknownExtension)
    else if HasDuplicate(m.extensions) then Failed(DuplicateHelloRetryRequestExtensions)
    else if m.cookie.None? && m.group.None? then Failed(IllegalHelloRetryRequestWithNoChanges)
    else if m.sessionId != c.sessionId then Failed(IllegalHelloRetryRequestWithWrongSessionId)
    else if m.supportedVersion != Some(Tls13) then Failed(IllegalHelloRetryRequestWithUnsupportedVersion)
    else match FindSuite(c.config.suites, m.suite)
         case None => Failed(IllegalHelloRetryRequestWithUnofferedCipherSuite)
         case Some(suite) =>
           var group := if m.group.Some? then m.group.value else x.keyShare.value;
           if group != x.keyShare.value && group !in c.config.groups then
             Failed(IllegalHelloRetryRequestWithUnofferedNamedGroup)
           else if group != x.keyShare.value && !c.groupStarts(group) then Failed(FailedToGetRandomBytes)
           else
             var buffer := MessageHash(c.hash(suite.hash, x.buffer)) + m.encoded;
             EmitClientHello(c, buffer, Some(suite), Some(group), c.secondHello(m, group), true, false)
  }

  function Handle(c: Client, p: Phase, m: Message): Phase {
    match p
    case HelloOrRetry(x) =>
      if m.ServerHello? then HandleServerHello(c, x, m)
      else if m.HelloRetryRequest? then HandleHelloRetryRequest(c, x, m)
      else Failed(InappropriateMessage)
    case HelloOnly(x) =>
      if m.ServerHello? then HandleServerHello(c, x, m) else Failed(InappropriateMessage)
    case _ => p
  }

  function Run(c: Client, p: Phase, ms: seq<Message>): Phase
    decreases |ms|
  {
    if ms == [] then p else Run(c, Handle(c, p, ms[0]), ms[1..])
  }

  // -----------------------------------------------------------------------------------------
  // What every run guarantees
  // -----------------------------------------------------------------------------------------

  // The conditions below speak of configuration and message fields only, not of the handlers' helpers.

  /** Among the configured suites, `s` is the first with this id. */
  ghost predicate FirstWithId(suites: seq<Suite>, id: nat, s: Suite) {
    exists i :: 0 <= i < |suites| && suites[i] == s && s.id == id && forall j :: 0 <= j < i ==> suites[j].id != id
  }

  lemma {:induction false} FindSuiteExactly(suites: seq<Suite>, id: nat, s: Suite)
    ensures FindSuite(suites, id) == Some(s) <==> FirstWithId(suites, id, s)
    decreases |suites|
  {
    if suites != [] {
      var rest := suites[1..];
      FindSuiteExactly(rest, id, s);
      assert forall i :: 0 <= i < |rest| ==> rest[i] == suites[i + 1];
      if FirstWithId(suites, id, s) && suites[0].id != id {
        var i :| 0 <= i < |suites| && suites[i] == s && s.id == id && forall j :: 0 <= j < i ==> suites[j].id != id;
        assert rest[i - 1] == s && forall j :: 0 <= j < i - 1 ==> rest[j].id != id;
      }
      if FirstWithId(rest, id, s) && suites[0].id != id {
        var i :| 0 <= i < |rest| && rest[i] == s && s.id == id && forall j :: 0 <= j < i ==> rest[j].id != id;
        assert suites[i + 1] == s && forall j :: 0 <= j < i + 1 ==> suites[j].id != id;
      }
    }
  }

  /**
    A ServerHello settles on TLS 1.3 by its supported_versions extension under the TLS 1.2 legacy
    version, or by the legacy version itself; on TLS 1.2 by the legacy version without the extension.
   */
  ghost predicate SettlesOn(m: Message, v: Version)
    requires m.ServerHello?
  {
    match v
    case Tls13 => m.legacyVersion == Tls13 || (m.legacyVersion == Tls12 && m.supportedVersion == Some(Tls13))
    case Tls12 => m.legacyVersion == Tls12 && m.supportedVersion == None
    case OtherVersion(_) => false
  }

  /** A ServerHello the client can agree to, with suite `s`, given what it sent before. */
  ghost predicate Agreeable(c: Client, x: Expect, m: Message, s: Suite) {
    && m.ServerHello? && SettlesOn(m, s.version) && s.version in c.config.versions
    && FirstWithId(c.config.suites, m.suite, s)
    && (x.suite.Some? ==> x.suite.value == s)
    && m.nullCompression && m.uncompressedPoints != Some(false)
    && (forall i, j :: 0 <= i < j < |m.extensions| ==> m.extensions[i] != m.extensions[j])
    && (forall e :: e in m.extensions ==> e in x.sentExtensions || e == RENEGOTIATION_INFO)
    && (s.version.Tls12? ==> !x.earlyTraffic
                             && (m.alpn.Some? ==> m.alpn.value in c.config.alpn))
  }

  /** A HelloRetryRequest that asks for an allowed change, with suite `s` and key-share group `g`. */
  ghost predicate LegalRetry(c: Client, x: Expect, m: Message, s: Suite, g: nat)
    requires x.keyShare.Some?
  {
    && m.HelloRetryRequest? && m.aligned && m.sessionId == c.sessionId && m.supportedVersion == Some(Tls13)
    && FirstWithId(c.config.suites, m.suite, s)
    && m.cookie != Some([])
    && (m.cookie.None? ==> m.group.Some? && m.group != x.keyShare)
    && (forall e :: e in m.extensions ==> e in {KEY_SHARE, SUPPORTED_VERSIONS, COOKIE})
    && (forall i, j :: 0 <= i < j < |m.extensions| ==> m.extensions[i] != m.extensions[j])
    && g == (if m.group.Some? then m.group.value else x.keyShare.value)
    && (g != x.keyShare.value ==> g in c.config.groups && c.groupStarts(g))
  }

  lemma {:induction false} ServerHelloExactly(c: Client, x: Expect, m: Message, s: Suite)
    requires m.ServerHello? && (Supports(c.config, Tls13) ==> x.keyShare.Some?)
    ensures HandleServerHello(c, x, m) == Accepted(s.version, s, s.hash, x.buffer + m.encoded)
       <==> Agreeable(c, x, m, s)
    ensures HandleServerHello(c, x, m).Accepted? ==>
              Agreeable(c, x, m, HandleServerHello(c, x, m).suite)
  {
    assert forall i :: 0 <= i < |m.extensions| ==> m.extensions[i] in m.extensions;
    SuiteIsOffered(c, m.suite, s);
    var found := FindSuite(c.config.suites, m.suite);
    if found.Some? {
      SuiteIsOffered(c, m.suite, found.value);
    }
  }

  lemma {:induction false} SuiteIsOffered(c: Client, id: nat, s: Suite)
    ensures FindSuite(c.config.suites, id) == Some(s) <==> FirstWithId(c.config.suites, id, s)
    ensures FirstWithId(c.config.suites, id, s) ==>
              (Supports(c.config, s.version) <==> !s.version.OtherVersion? && s.version in c.config.versions)
  {
    FindSuiteExactly(c.config.suites, id, s);
  }

  lemma {:induction false} RetryAccepted(c: Client, x: Expect, m: Message, s: Suite, g: nat)
    requires x.keyShare.Some? && LegalRetry(c, x, m, s, g)
    ensures HandleHelloRetryRequest(c, x, m) == HelloOnly(AfterRetry(c, x, m, s, g))
  {
    assert forall i :: 0 <= i < |m.extensions| ==> m.extensions[i] in m.extensions;
    assert !UnknownToRetry(m.extensions);
    assert !HasDuplicate(m.extensions);
    FindSuiteExactly(c.config.suites, m.suite, s);
  }

  lemma {:induction false} RetryExactly(c: Client, x: Expect, m: Message)
    requires m.HelloRetryRequest? && x.keyShare.Some?
    ensures var p := HandleHelloRetryRequest(c, x, m);
            && (p.HelloOnly? || p.Failed?)
            && (p.HelloOnly? <==> exists s, g :: LegalRetry(c, x, m, s, g))
            && forall s, g :: LegalRetry(c, x, m, s, g) ==> p == HelloOnly(AfterRetry(c, x, m, s, g))
  {
    var p := HandleHelloRetryRequest(c, x, m);
    forall s, g | LegalRetry(c, x, m, s, g) ensures p == HelloOnly(AfterRetry(c, x, m, s, g)) {
      RetryAccepted(c, x, m, s, g);
    }
    if p.HelloOnly? {
      var g := if m.group.Some? then m.group.value else x.keyShare.value;
      FindSuiteExactly(c.config.suites, m.suite, FindSuite(c.config.suites, m.suite).value);
      assert LegalRetry(c, x, m, FindSuite(c.config.suites, m.suite).value, g);
    }
  }

  /** The state after a legal retry; its transcript begins as section 4.4.1 of RFC 8446 says. */
  function AfterRetry(c: Client, x: Expect, m: Message, s: Suite, g: nat): Expect
    requires m.HelloRetryRequest?
  {
    var hello := c.secondHello(m, g);
    Expect(RetryTranscript(c.hash, s.hash, x.buffer, m.encoded, hello.encoded), Some(g), Some(s), false,
           hello.extensions)
  }

  lemma {:induction false} RunEnded(c: Client, p: Phase, ms: seq<Message>)
    requires p.Accepted? || p.Failed?
    ensures Run(c, p, ms) == p
    decreases |ms|
  {
    if ms != [] {
      RunEnded(c, p, ms[1..]);
    }
  }

  /** Accepting `m` with suite `s` in state `x`: suite, version and hash function go together. */
  ghost predicate Accepts(c: Client, x: Expect, m: Message, a: Phase) {
    exists s :: Agreeable(c, x, m, s) && a == Accepted(s.version, s, s.hash, x.buffer + m.encoded)
  }

  ghost predicate CanAccept(c: Client, x: Expect, m: Message) {
    exists s :: Agreeable(c, x, m, s)
  }

  lemma {:induction false} AcceptsExactly(c: Client, x: Expect, m: Message)
    requires Supports(c.config, Tls13) ==> x.keyShare.Some?
    ensures var a := Handle(c, HelloOnly(x), m);
            && (a.Accepted? || a.Failed?)
            && (a.Accepted? <==> CanAccept(c, x, m))
            && (a.Accepted? ==> Accepts(c, x, m, a))
  {
    if m.ServerHello? {
      var a := HandleServerHello(c, x, m);
      if a.Accepted? {
        ServerHelloExactly(c, x, m, a.suite);
      }
      if CanAccept(c, x, m) {
        var s :| Agreeable(c, x, m, s);
        ServerHelloExactly(c, x, m, s);
      }
    }
  }

  /** Waiting for a ServerHello only, a run accepts exactly when its first message is agreeable. */
  lemma {:induction false} RunHelloOnly(c: Client, x: Expect, ms: seq<Message>)
    requires Supports(c.config, Tls13) ==> x.keyShare.Some?
    ensures var a := Run(c, HelloOnly(x), ms);
            && (a.Accepted? <==> ms != [] && CanAccept(c, x, ms[0]))
            && (a.Accepted? ==> Accepts(c, x, ms[0], a))
  {
    if ms != [] {
      AcceptsExactly(c, x, ms[0]);
      RunEnded(c, Handle(c, HelloOnly(x), ms[0]), ms[1..]);
    }
  }

  ghost predicate Enabled(c: Client, v: Version) {
    v in c.config.versions && exists i :: 0 <= i < |c.config.suites| && c.config.suites[i].version == v
  }

  /** What the client has sent with its first hello: a key share if TLS 1.3 is enabled. */
  ghost function FirstExpect(c: Client): Expect {
    Expect(c.firstHello.encoded, if Enabled(c, Tls13) then Some(c.firstGroup) else None, None, c.earlyData,
           c.firstHello.extensions)
  }

  /**
    A run accepts exactly when it is an agreeable ServerHello, or, with TLS 1.3 enabled, one legal
    HelloRetryRequest and a ServerHello agreeable after it, whatever follows.  Agreeable means an
    enabled version, an offered suite of that version, the retry's suite if there was a retry; the
    transcript is that of section 4.4.1 of RFC 8446 with the suite's hash function inside and out.
   */
  lemma {:induction false} AcceptingRuns(c: Client, ms: seq<Message>)
    ensures var a, x := Run(c, StartHandshake(c), ms), FirstExpect(c);
            && (a.Accepted? <==>
                  || (ms != [] && CanAccept(c, x, ms[0]))
                  || (Enabled(c, Tls13) && |ms| >= 2 && CanRetry(c, x, ms[0], ms[1])))
            && (a.Accepted? ==> Accepts(c, x, ms[0], a) || (|ms| >= 2 && RetriedRun(c, x, ms, a)))
    ensures StartHandshake(c) == if Enabled(c, Tls13) then HelloOrRetry(FirstExpect(c)) else HelloOnly(FirstExpect(c))
  {
    var start, a := StartHandshake(c), Run(c, StartHandshake(c), ms);
    assert [] + c.firstHello.encoded == c.firstHello.encoded;
    assert Enabled(c, Tls13) == Supports(c.config, Tls13);
    var x := FirstExpect(c);
    assert start.x == x;
    if start.HelloOnly? {
      RunHelloOnly(c, x, ms);
    } else if ms != [] {
      var p := Handle(c, start, ms[0]);
      if ms[0].ServerHello? {
        SameFirst(c, x, ms);
        RunHelloOnly(c, x, ms);
      } else if ms[0].HelloRetryRequest? {
        AfterFirstRetry(c, x, ms);
      } else {
        RunEnded(c, p, ms[1..]);
      }
    }
  }

  /** A legal retry, and a hello agreeable after it. */
  ghost predicate CanRetry(c: Client, x: Expect, retry: Message, m: Message) {
    x.keyShare.Some? && exists s, g :: LegalRetry(c, x, retry, s, g) && CanAccept(c, AfterRetry(c, x, retry, s, g), m)
  }

  /** What such a run accepts. */
  ghost predicate RetriedRun(c: Client, x: Expect, ms: seq<Message>, a: Phase)
    requires |ms| >= 2
  {
    && x.keyShare.Some?
    && exists s, g :: LegalRetry(c, x, ms[0], s, g) && Accepts(c, AfterRetry(c, x, ms[0], s, g), ms[1], a)
  }

  lemma {:induction false} SameFirst(c: Client, x: Expect, ms: seq<Message>)
    requires ms != [] && ms[0].ServerHello?
    ensures Run(c, HelloOrRetry(x), ms) == Run(c, HelloOnly(x), ms)
  {
  }

  lemma {:induction false} AfterFirstRetry(c: Client, x: Expect, ms: seq<Message>)
    requires ms != [] && ms[0].HelloRetryRequest? && x.keyShare.Some?
    ensures var a := Run(c, HelloOrRetry(x), ms);
            && (a.Accepted? <==> |ms| >= 2 && CanRetry(c, x, ms[0], ms[1]))
            && (a.Accepted? ==> RetriedRun(c, x, ms, a))
  {
    RetryExactly(c, x, ms[0]);
    var p, a := HandleHelloRetryRequest(c, x, ms[0]), Run(c, HelloOrRetry(x), ms);
    assert a == Run(c, p, ms[1..]);
    if p.HelloOnly? {
      RunHelloOnly(c, p.x, ms[1..]);
      if |ms| >= 2 {
        assert ms[1..][0] == ms[1];
      }
    } else {
      RunEnded(c, p, ms[1..]);
    }
  }

  /** After a retry the version is TLS 1.3 exactly when the retry named a TLS 1.3 suite. */
  lemma {:induction false} RetryVersionExactly(c: Client, ms: seq<Message>)
    requires Run(c, StartHandshake(c), ms).Accepted? && ms != [] && ms[0].HelloRetryRequest?
    ensures exists s :: FirstWithId(c.config.suites, ms[0].suite, s)
                        && (Run(c, StartHandshake(c), ms).version == Tls13 <==> s.version == Tls13)
  {
    AcceptingRuns(c, ms);
  }

  /** The accepted version, by the fields of the ServerHello that was accepted. */
  lemma {:induction false} AcceptedVersionExactly(c: Client, ms: seq<Message>)
    requires Run(c, StartHandshake(c), ms).Accepted?
    ensures ms != [] && (ms[0].ServerHello? || (|ms| >= 2 && ms[1].ServerHello?))
    ensures var h, v := if ms[0].ServerHello? then ms[0] else ms[1], Run(c, StartHandshake(c), ms).version;
            && (v == Tls13 <==> h.legacyVersion == Tls13
                                || (h.legacyVersion == Tls12 && h.supportedVersion == Some(Tls13)))
            && (v == Tls12 <==> h.legacyVersion == Tls12 && h.supportedVersion == None)
  {
    AcceptingRuns(c, ms);
  }

  /** An ordinary TLS 1.3 hello: legacy version TLS 1.2, the extension, a TLS 1.3 suite, nothing unasked. */
  lemma {:induction false} OrdinaryTls13IsAccepted(c: Client, m: Message, s: Suite, rest: seq<Message>)
    requires m.ServerHello? && Tls13 in c.config.versions
    requires s.version == Tls13 && FirstWithId(c.config.suites, m.suite, s)
    requires m.legacyVersion == Tls12 && m.supportedVersion == Some(Tls13) && m.nullCompression
    requires m.extensions == [SUPPORTED_VERSIONS, KEY_SHARE] && m.alpn == None && m.uncompressedPoints == None
    requires SUPPORTED_VERSIONS in c.firstHello.extensions && KEY_SHARE in c.firstHello.extensions
    ensures FromWire(m)
    ensures Run(c, StartHandshake(c), [m] + rest)
         == Accepted(Tls13, s, s.hash, c.firstHello.encoded + m.encoded)
  {
    var ms, x := [m] + rest, FirstExpect(c);
    assert Agreeable(c, x, m, s);
    AcceptingRuns(c, ms);
    var a := Run(c, StartHandshake(c), ms);
    assert Accepts(c, x, m, a);
    var s' :| Agreeable(c, x, m, s') && a == Accepted(s'.version, s', s'.hash, x.buffer + m.encoded);
    FindSuiteExactly(c.config.suites, m.suite, s);
    FindSuiteExactly(c.config.suites, m.suite, s');
  }

  // -----------------------------------------------------------------------------------------
  // Why a message is refused
  // -----------------------------------------------------------------------------------------

  /** The ServerHello means TLS 1.2, with or without saying so in the extension. */
  ghost predicate Means12(m: Message)
    requires m.ServerHello?
  {
    m.legacyVersion == Tls12 && (m.supportedVersion == None || m.supportedVersion == Some(Tls12))
  }

  ghost predicate Repeats(extensions: seq<nat>) {
    exists i, j :: 0 <= i < j < |extensions| && extensions[i] == extensions[j]
  }

  /** What is wrong with the version a ServerHello selects, reason by reason. */
  ghost predicate VersionViolates(c: Client, x: Expect, m: Message, why: Failure)
    requires m.ServerHello?
  {
    match why
    case ServerTlsVersionIsDisabledByOurConfig =>
      (SettlesOn(m, Tls13) && !Enabled(c, Tls13)) || (Means12(m) && !Enabled(c, Tls12))
    case OfferedEarlyDataWithOldProtocolVersion => Means12(m) && x.earlyTraffic
    case SelectedTls12UsingTls13VersionExtension => Means12(m) && m.supportedVersion != None
    case ServerDoesNotSupportTls12Or13 => !SettlesOn(m, Tls13) && !Means12(m)
    case _ => false
  }

  /** What else is wrong with a ServerHello. */
  ghost predicate HelloViolates(c: Client, x: Expect, m: Message, why: Failure)
    requires m.ServerHello?
  {
    match why
    case SelectedUnofferedCompression => !m.nullCompression
    case DuplicateServerHelloExtensions => Repeats(m.extensions)
    case UnsolicitedServerHelloExtension =>
      exists e :: e in m.extensions && e !in x.sentExtensions && e != RENEGOTIATION_INFO
    case SelectedUnofferedApplicationProtocol => Means12(m) && m.alpn.Some? && m.alpn.value !in c.config.alpn
    case ServerHelloMustOfferUncompressedEcPoints => m.uncompressedPoints == Some(false)
    case SelectedUnofferedCipherSuite => !exists s :: FirstWithId(c.config.suites, m.suite, s)
    case SelectedUnusableCipherSuiteForVersion =>
      exists s :: FirstWithId(c.config.suites, m.suite, s)
                  && !SettlesOn(m, s.version) && !(s.version == Tls12 && Means12(m))
    case SelectedDifferentCipherSuiteAfterRetry =>
      x.suite.Some? && !FirstWithId(c.config.suites, m.suite, x.suite.value)
    case _ => false
  }

  /** What is wrong with a HelloRetryRequest. */
  ghost predicate RetryViolates(c: Client, x: Expect, m: Message, why: Failure)
    requires m.HelloRetryRequest?
  {
    match why
    case KeyEpochWithPendingFragment => !m.aligned
    case IllegalHelloRetryRequestWithOfferedGroup => m.cookie == None && m.group.Some? && m.group == x.keyShare
    case IllegalHelloRetryRequestWithEmptyCookie => m.cookie == Some([])
    case ServerSentHelloRetryRequestWithUnknownExtension =>
      exists e :: e in m.extensions && e !in {KEY_SHARE, SUPPORTED_VERSIONS, COOKIE}
    case DuplicateHelloRetryRequestExtensions => Repeats(m.extensions)
    case IllegalHelloRetryRequestWithNoChanges => m.cookie == None && m.group == None
    case IllegalHelloRetryRequestWithWrongSessionId => m.sessionId != c.sessionId
    case IllegalHelloRetryRequestWithUnsupportedVersion => m.supportedVersion != Some(Tls13)
    case IllegalHelloRetryRequestWithUnofferedCipherSuite =>
      !exists s :: FirstWithId(c.config.suites, m.suite, s)
    case IllegalHelloRetryRequestWithUnofferedNamedGroup =>
      m.group.Some? && m.group != x.keyShare && m.group.value !in c.config.groups
    case FailedToGetRandomBytes => m.group.Some? && m.group != x.keyShare && !c.groupStarts(m.group.value)
    case _ => false
  }

  ghost predicate Violates(c: Client, x: Expect, m: Message, why: Failure) {
    match m
    case ServerHello(_, _, _, _, _, _, _, _) => VersionViolates(c, x, m, why) || HelloViolates(c, x, m, why)
    case HelloRetryRequest(_, _, _, _, _, _, _, _) => RetryViolates(c, x, m, why)
    case OtherMessage => why == InappropriateMessage
  }

  /** The order in which the reasons are looked for. */
  function Rank(why: Failure): nat {
    match why
    case InappropriateMessage => 0
    case ServerTlsVersionIsDisabledByOurConfig => 1
    case OfferedEarlyDataWithOldProtocolVersion => 2
    case SelectedTls12UsingTls13VersionExtension => 3
    case ServerDoesNotSupportTls12Or13 => 4
    case SelectedUnofferedCompression => 5
    case DuplicateServerHelloExtensions => 6
    case UnsolicitedServerHelloExtension => 7
    case SelectedUnofferedApplicationProtocol => 8
    case ServerHelloMustOfferUncompressedEcPoints => 9
    case SelectedUnofferedCipherSuite => 10
    case SelectedUnusableCipherSuiteForVersion => 11
    case SelectedDifferentCipherSuiteAfterRetry => 12
    case KeyEpochWithPendingFragment => 13
    case IllegalHelloRetryRequestWithOfferedGroup => 14
    case IllegalHelloRetryRequestWithEmptyCookie => 15
    case ServerSentHelloRetryRequestWithUnknownExtension => 16
    case DuplicateHelloRetryRequestExtensions => 17
    case IllegalHelloRetryRequestWithNoChanges => 18
    case IllegalHelloRetryRequestWithWrongSessionId => 19
    case IllegalHelloRetryRequestWithUnsupportedVersion => 20
    case IllegalHelloRetryRequestWithUnofferedCipherSuite => 21
    case IllegalHelloRetryRequestWithUnofferedNamedGroup => 22
    case FailedToGetRandomBytes => 23
    case Panic => 24
  }

  /** A refusal names something that is wrong with the message, and nothing looked for before it is. */
  lemma {:induction false} RefusalIsTrue(c: Client, x: Expect, m: Message, w: Failure)
    requires (Enabled(c, Tls13) || m.HelloRetryRequest?) ==> x.keyShare.Some?
    ensures var p := Handle(c, HelloOrRetry(x), m);
            p.Failed? ==> Violates(c, x, m, p.why) && (Rank(w) < Rank(p.why) ==> !Violates(c, x, m, w))
  {
    if m.ServerHello? {
      HelloRefusalIsTrue(c, x, m, w);
    } else if m.HelloRetryRequest? {
      RetryRefusalIsTrue(c, x, m, w);
    }
  }

  lemma {:induction false} HelloRefusalIsTrue(c: Client, x: Expect, m: Message, w: Failure)
    requires m.ServerHello? && (Enabled(c, Tls13) ==> x.keyShare.Some?)
    ensures var p := HandleServerHello(c, x, m);
            p.Failed? ==> Violates(c, x, m, p.why) && (Rank(w) < Rank(p.why) ==> !Violates(c, x, m, w))
  {
    VersionRefusalIsTrue(c, x, m, w);
    if SelectVersion(c, x, m).0.Some? {
      LaterRefusalIsTrue(c, x, m, w);
    }
  }

  /** The version is decided first. */
  lemma {:induction false} VersionRefusalIsTrue(c: Client, x: Expect, m: Message, w: Failure)
    requires m.ServerHello?
    ensures var (v, why) := SelectVersion(c, x, m);
            if v.Some? then SettlesOn(m, v.value) && Enabled(c, v.value) && !VersionViolates(c, x, m, w)
            else VersionViolates(c, x, m, why) && (Rank(w) < Rank(why) ==> !VersionViolates(c, x, m, w))
  {
    assert Enabled(c, Tls13) == Supports(c.config, Tls13) && Enabled(c, Tls12) == Supports(c.config, Tls12);
  }

  lemma {:induction false} LaterRefusalIsTrue(c: Client, x: Expect, m: Message, w: Failure)
    requires m.ServerHello? && (Enabled(c, Tls13) ==> x.keyShare.Some?) && SelectVersion(c, x, m).0.Some?
    ensures var p := HandleServerHello(c, x, m);
            p.Failed? ==> HelloViolates(c, x, m, p.why) && (Rank(w) < Rank(p.why) ==> !HelloViolates(c, x, m, w))
  {
    VersionRefusalIsTrue(c, x, m, w);
    assert forall i :: 0 <= i < |m.extensions| ==> m.extensions[i] in m.extensions;
    OnlySuite(c, m.suite);
  }

  lemma {:induction false} RetryRefusalIsTrue(c: Client, x: Expect, m: Message, w: Failure)
    requires m.HelloRetryRequest? && x.keyShare.Some?
    ensures var p := HandleHelloRetryRequest(c, x, m);
            p.Failed? ==> RetryViolates(c, x, m, p.why) && (Rank(w) < Rank(p.why) ==> !RetryViolates(c, x, m, w))
  {
    assert forall i :: 0 <= i < |m.extensions| ==> m.extensions[i] in m.extensions;
    OnlySuite(c, m.suite);
  }

  lemma {:induction false} OnlySuite(c: Client, id: nat)
    ensures forall s :: FirstWithId(c.config.suites, id, s) <==> FindSuite(c.config.suites, id) == Some(s)
  {
    forall s ensures FirstWithId(c.config.suites, id, s) <==> FindSuite(c.config.suites, id) == Some(s) {
      FindSuiteExactly(c.config.suites, id, s);
    }
  }

  /** No run fails on a missing key share: one was sent whenever TLS 1.3 is enabled. */
  lemma {:induction false} NeverPanics(c: Client, ms: seq<Message>)
    ensures Run(c, StartHandshake(c), ms) != Failed(Panic)
  {
    RunNeverPanics(c, StartHandshake(c), ms);
  }

  ghost predicate SentShare(c: Client, p: Phase) {
    && p != Failed(Panic)
    && (p.HelloOrRetry? || p.HelloOnly? ==> (Supports(c.config, Tls13) ==> p.x.keyShare.Some?))
    && (p.HelloOrRetry? ==> Supports(c.config, Tls13))
  }

  lemma {:induction false} RunNeverPanics(c: Client, p: Phase, ms: seq<Message>)
    requires SentShare(c, p)
    ensures SentShare(c, Run(c, p, ms))
    decreases |ms|
  {
    if ms != [] {
      RunNeverPanics(c, Handle(c, p, ms[0]), ms[1..]);
    }
  }

  /** A retry that names a TLS 1.2 suite, followed by a TLS 1.2 ServerHello, is accepted. */
  lemma {:induction false} RetryCanEndInTls12(c: Client, retry: Message, hello: Message, e1: seq<byte>, e2: seq<byte>)
    requires c.config.suites == [Suite(1, Tls13, 7), Suite(2, Tls12, 7)] && c.config.versions == {Tls12, Tls13}
    requires retry == HelloRetryRequest(c.sessionId, 2, Some([1]), None, Some(Tls13), [COOKIE, SUPPORTED_VERSIONS],
                                        true, e1)
    requires hello == ServerHello(Tls12, None, 2, true, [], None, None, e2)
    ensures FromWire(retry) && FromWire(hello)
    ensures Run(c, StartHandshake(c), [retry, hello]).Accepted?
    ensures Run(c, StartHandshake(c), [retry, hello]).version == Tls12
  {
    var s := c.config.suites;
    assert s[0].version == Tls13 && s[1].version == Tls12;
    assert FindSuite(s, 2) == Some(s[1]) by {
      assert s[1..][0] == s[1];
    }
    var p1 := Handle(c, StartHandshake(c), retry);
    var p2 := Handle(c, p1, hello);
    assert p1.HelloOnly? && p1.x.suite == Some(s[1]);
    assert p2.Accepted?;
    assert [retry, hello][1..] == [hello] && [hello][1..] == [];
    assert Run(c, p1, [hello]) == p2;
  }
}
