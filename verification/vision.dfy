/**
  The Vision padding protocol: `UnpadState` strips a UUID prefix and padded frames from a byte
  stream that arrives in arbitrary chunks, `PadState` and `EncodeFrame` produce such streams.

  `Run` is a byte-at-a-time reference machine.  `UnpadState.Feed`, which copies whole slices, is
  proved equal to it, and everything else is stated about `Run`.
 */
module Vision {
  import opened Bytes

  datatype Command = PaddingContinue | PaddingEnd | PaddingDirect {
    function ToByte(): byte {
      match this
      case PaddingContinue => 0
      case PaddingEnd => 1
      case PaddingDirect => 2
    }
  }

  function CommandFromByte(b: byte): (c: Option<Command>)
    ensures c.None? <==> b > 2
    ensures c.Some? ==> c.value.ToByte() == b
    ensures c == Some(PaddingContinue) <==> b == 0
    ensures c == Some(PaddingEnd) <==> b == 1
    ensures c == Some(PaddingDirect) <==> b == 2
  {
    match b
    case 0 => Some(PaddingContinue)
    case 1 => Some(PaddingEnd)
    case 2 => Some(PaddingDirect)
    case _ => None
  }

  datatype UnpadError = UuidMismatch | BadCommand(command: byte)

  // -----------------------------------------------------------------------------------------
  // The byte-at-a-time reference machine
  // -----------------------------------------------------------------------------------------

  datatype Unpad = Unpad(
    userUuid: seq<byte>,
    remainingCommand: int,
    remainingContent: int,
    remainingPadding: int,
    currentCommand: byte,
    done: bool,
    direct: bool,
    uuidBuf: seq<byte>,
    uuidDone: bool)
  {
    /** What every state between two calls satisfies, as long as no call has failed. */
    ghost predicate Valid() {
      && |userUuid| == 16
      && (!uuidDone ==> |uuidBuf| < 16 && !done)
      && (uuidDone && !done ==> Reading())
      && (uuidDone && !done && remainingCommand == 0 ==> remainingContent + remainingPadding > 0)
    }

    /** Inside a frame, of which nothing may be left. */
    ghost predicate Reading() {
      && 0 <= remainingCommand <= 5
      && (remainingCommand <= 3 ==> 0 <= remainingContent < 65536)
      && (remainingCommand <= 1 ==> 0 <= remainingPadding < 65536)
      && (remainingCommand == 3 ==> remainingContent % 256 == 0)
      && (remainingCommand == 1 ==> remainingPadding % 256 == 0)
    }
  }

  function Start(userUuid: seq<byte>): Unpad {
    Unpad(userUuid, -1, -1, -1, 0, false, false, [], false)
  }

  datatype Outcome = Outcome(state: Unpad, out: seq<byte>, error: Option<UnpadError>)

  /** The end-of-frame rule: once nothing of the frame is left its command decides what is next. */
  function Settle(s: Unpad, out: seq<byte>): Outcome {
    if s.remainingCommand == 0 && s.remainingContent == 0 && s.remainingPadding == 0 then
      match CommandFromByte(s.currentCommand)
      case Some(PaddingContinue) =>
        Outcome(s.(remainingCommand := 5, remainingContent := -1, remainingPadding := -1), out, None)
      case Some(PaddingEnd) => Outcome(s.(done := true), out, None)
      case Some(PaddingDirect) => Outcome(s.(done := true, direct := true), out, None)
      case None => Outcome(s, out, Some(BadCommand(s.currentCommand)))
    else
      Outcome(s, out, None)
  }

  /** One header byte: command, content length (high, low), padding length (high, low). */
  function HeaderByte(s: Unpad, b: byte): Unpad {
    var t := s.(remainingCommand := s.remainingCommand - 1);
    match s.remainingCommand
    case 5 => t.(currentCommand := b)
    case 4 => t.(remainingContent := 256 * b)
    case 3 => t.(remainingContent := s.remainingContent + b)
    case 2 => t.(remainingPadding := 256 * b)
    case _ => t.(remainingPadding := s.remainingPadding + b)
  }

  function Step(s: Unpad, b: byte): Outcome {
    if !s.uuidDone then
      var buf := s.uuidBuf + [b];
      if |buf| < 16 then Outcome(s.(uuidBuf := buf), [], None)
      else if buf != s.userUuid then Outcome(s.(uuidBuf := buf), [], Some(UuidMismatch))
      else Outcome(s.(uuidBuf := buf, uuidDone := true, remainingCommand := 5), [], None)
    else if s.done then Outcome(s, [b], None)
    else if s.remainingCommand > 0 then Settle(HeaderByte(s, b), [])
    else if s.remainingContent > 0 then
      Settle(s.(remainingContent := s.remainingContent - 1), [b])
    else
      Settle(s.(remainingPadding := s.remainingPadding - 1), [])
  }

  /** Continues an outcome with more wire bytes; nothing is read after an error. */
  function Then(o: Outcome, wire: seq<byte>): Outcome
    decreases |wire|, 1
  {
    if o.error.Some? then o
    else
      var t := Run(o.state, wire);
      Outcome(t.state, o.out + t.out, t.error)
  }

  function Run(s: Unpad, wire: seq<byte>): Outcome
    decreases |wire|, 0
  {
    if wire == [] then Outcome(s, [], None) else Then(Step(s, wire[0]), wire[1..])
  }

  // -----------------------------------------------------------------------------------------
  // Chunking invariance
  // -----------------------------------------------------------------------------------------

  lemma {:induction false} RunSplit(s: Unpad, a: seq<byte>, b: seq<byte>)
    ensures Run(s, a + b) == Then(Run(s, a), b)
    decreases |a|
  {
    if a == [] {
      assert a + b == b;
    } else {
      var o := Step(s, a[0]);
      assert (a + b)[1..] == a[1..] + b;
      if o.error.None? {
        RunSplit(o.state, a[1..], b);
      }
    }
  }

  /** The calls a reader makes: one per chunk, in order, up to the first error. */
  function FeedAll(o: Outcome, chunks: seq<seq<byte>>): Outcome
    decreases |chunks|
  {
    if chunks == [] then o else FeedAll(Then(o, chunks[0]), chunks[1..])
  }

  lemma {:induction false} ThenThen(o: Outcome, a: seq<byte>, b: seq<byte>)
    ensures Then(Then(o, a), b) == Then(o, a + b)
  {
    if o.error.None? {
      RunSplit(o.state, a, b);
    }
  }

  /** However a wire string is cut, feeding the pieces equals feeding it in one call. */
  lemma {:induction false} ChunkingInvariance(o: Outcome, chunks: seq<seq<byte>>)
    ensures FeedAll(o, chunks) == Then(o, Flatten(chunks))
    decreases |chunks|
  {
    if chunks != [] {
      ThenThen(o, chunks[0], Flatten(chunks[1..]));
      ChunkingInvariance(Then(o, chunks[0]), chunks[1..]);
    }
  }

  // -----------------------------------------------------------------------------------------
  // Running over whole slices
  // -----------------------------------------------------------------------------------------

  lemma {:induction false} RunUuid(s: Unpad, w: seq<byte>, k: nat)
    requires !s.uuidDone && k <= |w| && |s.uuidBuf| + k < 16
    ensures Run(s, w) == Run(s.(uuidBuf := s.uuidBuf + w[..k]), w[k..])
    decreases k
  {
    if k == 0 {
      assert s.uuidBuf + w[..0] == s.uuidBuf;
    } else {
      var t := s.(uuidBuf := s.uuidBuf + [w[0]]);
      RunUuid(t, w[1..], k - 1);
      assert t.uuidBuf + w[1..][..k - 1] == s.uuidBuf + w[..k];
      assert w[1..][k - 1..] == w[k..];
    }
  }

  /** The sixteenth byte decides. */
  lemma {:induction false} RunWholeUuid(s: Unpad, w: seq<byte>, k: nat)
    requires !s.uuidDone && 0 < k <= |w| && |s.uuidBuf| + k == 16
    ensures var t := s.(uuidBuf := s.uuidBuf + w[..k]);
            Run(s, w) == if t.uuidBuf != s.userUuid then Outcome(t, [], Some(UuidMismatch))
                         else Run(t.(uuidDone := true, remainingCommand := 5), w[k..])
  {
    RunUuid(s, w, k - 1);
    var t := s.(uuidBuf := s.uuidBuf + w[..k - 1]);
    assert t.uuidBuf + [w[k - 1]] == s.uuidBuf + w[..k];
    assert w[k - 1..][0] == w[k - 1] && w[k - 1..][1..] == w[k..];
    assert Run(t, w[k - 1..]) == Then(Step(t, w[k - 1]), w[k..]);
  }

  lemma {:induction false} ContentByte(s: Unpad, w: seq<byte>)
    requires s.uuidDone && !s.done && s.remainingCommand == 0 && 0 < s.remainingContent && w != []
    ensures Run(s, w) == Then(Settle(s.(remainingContent := s.remainingContent - 1), [w[0]]), w[1..])
  {
  }

  lemma {:induction false} RunContent(s: Unpad, w: seq<byte>, k: nat)
    requires s.uuidDone && !s.done && s.remainingCommand == 0 && 0 <= s.remainingPadding
    requires 0 < k <= |w| && k <= s.remainingContent
    ensures Run(s, w) == Then(Settle(s.(remainingContent := s.remainingContent - k), w[..k]), w[k..])
    decreases k
  {
    ContentByte(s, w);
    if k == 1 {
      assert w[..1] == [w[0]];
    } else {
      var t := s.(remainingContent := s.remainingContent - 1);
      assert Settle(t, [w[0]]) == Outcome(t, [w[0]], None);
      RunContent(t, w[1..], k - 1);
      assert [w[0]] + w[1..][..k - 1] == w[..k];
      assert w[1..][k - 1..] == w[k..];
      var u := s.(remainingContent := s.remainingContent - k);
      ThenPrepend([w[0]], Settle(u, w[1..][..k - 1]), w[k..]);
    }
  }

  lemma {:induction false} RunPadding(s: Unpad, w: seq<byte>, k: nat)
    requires s.uuidDone && !s.done && s.remainingCommand == 0 && s.remainingContent == 0
    requires 0 < k <= |w| && k <= s.remainingPadding
    ensures Run(s, w) == Then(Settle(s.(remainingPadding := s.remainingPadding - k), []), w[k..])
    decreases k
  {
    if k > 1 {
      RunPadding(s.(remainingPadding := s.remainingPadding - 1), w[1..], k - 1);
      assert w[1..][k - 1..] == w[k..];
    }
  }

  lemma {:induction false} RunDone(s: Unpad, w: seq<byte>)
    requires s.uuidDone && s.done
    ensures Run(s, w) == Outcome(s, w, None)
    decreases |w|
  {
    if w != [] {
      RunDone(s, w[1..]);
      assert [w[0]] + w[1..] == w;
    }
  }

  lemma {:induction false} ThenPrepend(p: seq<byte>, o: Outcome, w: seq<byte>)
    ensures var t := Then(o, w);
            Then(o.(out := p + o.out), w) == t.(out := p + t.out)
  {
    if o.error.None? {
      var t := Run(o.state, w);
      assert (p + o.out) + t.out == p + (o.out + t.out);
    }
  }

  // -----------------------------------------------------------------------------------------
  // The resumable parser
  // -----------------------------------------------------------------------------------------

  class UnpadState {
    var userUuid: seq<byte>
    var remainingCommand: int
    var remainingContent: int
    var remainingPadding: int
    var currentCommand: byte
    var done: bool
    var direct: bool
    var uuidBuf: seq<byte>
    var uuidDone: bool

    ghost function State(): Unpad
      reads this
    {
      Unpad(userUuid, remainingCommand, remainingContent, remainingPadding, currentCommand,
            done, direct, uuidBuf, uuidDone)
    }

    constructor (uuid: seq<byte>)
      requires |uuid| == 16
      ensures State() == Start(uuid) && State().Valid()
    {
      userUuid := uuid;
      remainingCommand, remainingContent, remainingPadding := -1, -1, -1;
      currentCommand, done, direct := 0, false, false;
      uuidBuf, uuidDone := [], false;
    }

    /** Accumulates the UUID prefix; checks it once it is complete. */
    method TakeUuid(wire: seq<byte>) returns (i: nat, error: Option<UnpadError>)
      requires State().Valid() && !uuidDone
      modifies this
      ensures i <= |wire|
      ensures uuidDone ==> error.None? && State().Valid() && Run(old(State()), wire) == Run(State(), wire[i..])
      ensures !uuidDone ==> Run(old(State()), wire) == Outcome(State(), [], error)
      ensures !uuidDone && error.None? ==> State().Valid()
    {
      ghost var s := State();
      var take := Min(16 - |uuidBuf|, |wire|);
      i, error := take, None;
      uuidBuf := uuidBuf + wire[..take];
      if |uuidBuf| < 16 {
        RunUuid(s, wire, take);
        return;
      }
      RunWholeUuid(s, wire, take);
      if uuidBuf != userUuid {
        error := Some(UuidMismatch);
        return;
      }
      uuidDone := true;
      remainingCommand := 5;
    }

    method ReadHeaderByte(b: int)
      requires 0 <= b < 256 && State().Reading() && remainingCommand > 0
      modifies `remainingCommand, `remainingContent, `remainingPadding, `currentCommand
      ensures State() == HeaderByte(old(State()), b) && State().Reading()
    {
      match remainingCommand {
        case 5 => currentCommand := b;
        case 4 => remainingContent := 256 * b;
        case 3 => remainingContent := remainingContent + b;
        case 2 => remainingPadding := 256 * b;
        case _ => remainingPadding := remainingPadding + b;
      }
      remainingCommand := remainingCommand - 1;
    }

    /** The reading half of one loop round: a header byte, or as much content or padding as there is. */
    method ReadSome(wire: seq<byte>, i: nat) returns (j: nat, read: seq<byte>)
      requires State().Valid() && uuidDone && !done && i < |wire|
      modifies this
      ensures i < j <= |wire| && uuidDone && !done && |userUuid| == 16 && State().Reading()
      ensures Run(old(State()), wire[i..]) == Then(Settle(State(), read), wire[j..])
    {
      ghost var s := State();
      if remainingCommand > 0 {
        assert wire[i..][1..] == wire[i + 1..];
        ReadHeaderByte(wire[i]);
        j, read := i + 1, [];
      } else if remainingContent > 0 {
        var take := Min(remainingContent, |wire| - i);
        RunContent(s, wire[i..], take);
        assert wire[i..][take..] == wire[i + take..];
        assert wire[i..][..take] == wire[i..i + take];
        j, read := i + take, wire[i..i + take];
        remainingContent := remainingContent - take;
      } else {
        var take := Min(remainingPadding, |wire| - i);
        RunPadding(s, wire[i..], take);
        assert wire[i..][take..] == wire[i + take..];
        j, read := i + take, [];
        remainingPadding := remainingPadding - take;
      }
    }

    /** The deciding half of a loop round: ends a frame of which nothing is left. */
    method EndFrame() returns (error: Option<UnpadError>)
      requires uuidDone && !done && |userUuid| == 16 && State().Reading()
      modifies this
      ensures Outcome(State(), [], error) == Settle(old(State()), [])
      ensures error.None? ==> State().Valid()
    {
      error := None;
      if remainingCommand == 0 && remainingContent == 0 && remainingPadding == 0 {
        match CommandFromByte(currentCommand) {
          case Some(PaddingContinue) =>
            remainingCommand, remainingContent, remainingPadding := 5, -1, -1;
          case Some(PaddingEnd) => done := true;
          case Some(PaddingDirect) => done, direct := true, true;
          case None => error := Some(BadCommand(currentCommand));
        }
      }
    }

    /** Takes wire bytes, returns the unwrapped bytes to append to the caller's buffer. */
    method Feed(wire: seq<byte>) returns (out: seq<byte>, error: Option<UnpadError>)
      requires State().Valid()
      modifies this
      ensures Outcome(State(), out, error) == Run(old(State()), wire)
      ensures error.None? ==> State().Valid()
    {
      var i := 0;
      out, error := [], None;
      assert wire[0..] == wire;
      if !uuidDone {
        i, error := TakeUuid(wire);
        if !uuidDone {
          return;
        }
      }
      ghost var target := Run(old(State()), wire);
      while i < |wire|
        invariant 0 <= i <= |wire|
        invariant uuidDone && State().Valid() && error == None
        invariant target == Then(Outcome(State(), out, None), wire[i..])
        decreases |wire| - i
      {
        if done {
          RunDone(State(), wire[i..]);
          out := out + wire[i..];
          return;
        }
        var read;
        i, read := ReadSome(wire, i);
        ghost var settled := Settle(State(), read);
        ThenPrepend(out, settled, wire[i..]);
        out := out + read;
        assert target == Then(settled.(out := out), wire[i..]);
        error := EndFrame();
        assert settled.(out := out) == Outcome(State(), out, error);
        if error.Some? {
          return;
        }
      }
    }
  }

  // -----------------------------------------------------------------------------------------
  // The writer
  // -----------------------------------------------------------------------------------------

  const FRAME_MAX: int := 2048
  const HEADER_OVERHEAD: int := 21

  datatype PaddingSeed = PaddingSeed(longThreshold: nat, longRandMod: nat, longBase: nat, shortRandMod: nat)
  {
    /** The generator divides by both moduli. */
    ghost predicate Usable() {
      0 < longRandMod && 0 < shortRandMod
    }

    /** Small enough that no sum of them overflows 32 bits. */
    ghost predicate Small() {
      longRandMod < 0x4000_0000 && longBase < 0x4000_0000 && shortRandMod < 0x4000_0000
    }
  }

  const DEFAULT_SEED := PaddingSeed(900, 500, 900, 256)

  /** The signed 32-bit number with the low bits of `x`. */
  function AsI32(x: int): (y: int)
    ensures -0x8000_0000 <= x < 0x8000_0000 ==> y == x
  {
    var low := x % 0x1_0000_0000;
    if low < 0x8000_0000 then low else low - 0x1_0000_0000
  }

  /**
    The padding length for the random number `r`.  The content length is truncated to 32 bits, and
    sums wrap around.
   */
  function PaddingLength(len: nat, longPadding: bool, seed: PaddingSeed, r: nat): nat
    requires seed.Usable()
  {
    var contentLen := AsI32(len);
    var wanted :=
      if len % 0x1_0000_0000 < seed.longThreshold && longPadding then
        AsI32(r % seed.longRandMod + seed.longBase - contentLen)
      else AsI32(r % seed.shortRandMod);
    Capped(wanted, AsI32(FRAME_MAX - HEADER_OVERHEAD - contentLen))
  }

  function Capped(wanted: int, cap: int): (n: nat)
    ensures n > 0 ==> n <= wanted
  {
    var positive := if wanted < 0 then 0 else wanted;
    if positive > cap then (if cap < 0 then 0 else cap) else positive
  }

  /**
    Below 2 GiB a frame stays within its maximum, and content that fills it gets no padding.  A seed
    whose sums do not overflow also bounds the length as its values say.
   */
  lemma {:induction false} PaddingBounds(len: nat, longPadding: bool, seed: PaddingSeed, r: nat)
    requires seed.Usable() && len < 0x8000_0000
    ensures var n := PaddingLength(len, longPadding, seed, r);
            && (len <= 2027 ==> 21 + len + n <= 2048)
            && (len > 2027 ==> n == 0)
            && (seed.Small() && longPadding && len < seed.longThreshold ==>
                  && n >= Min(seed.longBase - len, 2027 - len)
                  && (n > 0 ==> n < seed.longBase - len + seed.longRandMod))
            && (seed.Small() && !(longPadding && len < seed.longThreshold) ==> n < seed.shortRandMod)
  {
    var low := len % 0x1_0000_0000;
    assert low == len && AsI32(len) == len;
  }

  /** The buffer is sized in 64 bits from the truncated length; no allocation reaches 2^63 bytes. */
  predicate TooLong(includeUuidPrefix: bool, len: nat, paddingLen: nat) {
    ((if includeUuidPrefix then 16 else 0) + 5 + AsI32(len) + paddingLen) % 0x1_0000_0000_0000_0000
      >= 0x8000_0000_0000_0000
  }

  /** Command and both lengths.  A length keeps only its low 16 bits. */
  function Header(command: Command, contentLen: nat, paddingLen: nat): seq<byte> {
    [command.ToByte(), (contentLen / 256) % 256, contentLen % 256, (paddingLen / 256) % 256, paddingLen % 256]
  }

  /** The wire form of one frame. */
  function FrameBytes(command: Command, payload: seq<byte>, padding: seq<byte>): seq<byte> {
    Header(command, |payload|, |padding|) + (payload + padding)
  }

  /** The first `n` bytes a random source delivers. */
  function Noise(fill: nat -> byte, n: nat): (s: seq<byte>)
    ensures |s| == n && forall i :: 0 <= i < n ==> s[i] == fill(i)
  {
    seq<byte>(n, i requires 0 <= i => fill(i))
  }

  /** `None` where the code panics. */
  method EncodeFrame(payload: seq<byte>, command: Command, includeUuidPrefix: bool, uuid: seq<byte>,
                     longPadding: bool, seed: PaddingSeed, r: nat, fill: nat -> byte)
    returns (result: Option<seq<byte>>)
    requires seed.Usable()
    ensures var n := PaddingLength(|payload|, longPadding, seed, r);
            var prefix := if includeUuidPrefix then uuid else [];
            result == if TooLong(includeUuidPrefix, |payload|, n) then None
                      else Some(prefix + FrameBytes(command, payload, Noise(fill, n)))
  {
    var paddingLen := PaddingLength(|payload|, longPadding, seed, r);
    if TooLong(includeUuidPrefix, |payload|, paddingLen) {
      return None;
    }
    var out := if includeUuidPrefix then uuid else [];
    ghost var prefix := out;
    out := out + Header(command, |payload|, paddingLen);
    out := out + payload;
    ghost var padding := Noise(fill, paddingLen);
    out := FillWithNoise(out, fill, paddingLen);
    assert out == prefix + (Header(command, |payload|, |padding|) + (payload + padding));
    result := Some(out);
  }

  method FillWithNoise(head: seq<byte>, fill: nat -> byte, n: nat) returns (out: seq<byte>)
    ensures out == head + Noise(fill, n)
  {
    out := head;
    var i := 0;
    while i < n
      invariant 0 <= i <= n
      invariant out == head + Noise(fill, i)
    {
      out := out + [fill(i)];
      i := i + 1;
      assert Noise(fill, i) == Noise(fill, i - 1) + [fill(i - 1)];
    }
  }

  class PadState {
    const userUuid: seq<byte>
    var done: bool
    const seed: PaddingSeed := DEFAULT_SEED

    constructor (uuid: seq<byte>)
      ensures userUuid == uuid && !done
    {
      userUuid := uuid;
      done := false;
    }

    method Wrap(payload: seq<byte>, r: nat, fill: nat -> byte) returns (out: Option<seq<byte>>)
      modifies this
      ensures done
      ensures var w := Write(payload, PaddingEnd, r, fill);
              out == if !old(done) && w.Panics() then None else Some(Written(userUuid, old(done), w))
    {
      if done {
        return Some(payload);
      }
      done := true;
      out := EncodeFrame(payload, PaddingEnd, true, userUuid, true, seed, r, fill);
    }

    method IntoDirect(payload: seq<byte>, r: nat, fill: nat -> byte) returns (out: Option<seq<byte>>)
      modifies this
      ensures done
      ensures var w := Write(payload, PaddingDirect, r, fill);
              out == if !old(done) && w.Panics() then None else Some(Written(userUuid, old(done), w))
    {
      if done {
        return Some(payload);
      }
      done := true;
      out := EncodeFrame(payload, PaddingDirect, true, userUuid, true, seed, r, fill);
    }
  }

  /** One call on a `PadState`: `PaddingEnd` for `Wrap`, `PaddingDirect` for `IntoDirect`. */
  datatype Write = Write(payload: seq<byte>, command: Command, r: nat, fill: nat -> byte) {
    /** The padding if this is the first call. */
    function Padding(): (p: seq<byte>)
      ensures |p| == PaddingLength(|payload|, true, DEFAULT_SEED, r)
    {
      Noise(fill, PaddingLength(|payload|, true, DEFAULT_SEED, r))
    }

    predicate Panics() {
      TooLong(true, |payload|, |Padding()|)
    }
  }

  function Written(uuid: seq<byte>, done: bool, w: Write): seq<byte> {
    if done then w.payload else uuid + FrameBytes(w.command, w.payload, w.Padding())
  }

  /** What a run of calls puts on the wire. */
  function WrittenAll(uuid: seq<byte>, done: bool, writes: seq<Write>): seq<byte>
    decreases |writes|
  {
    if writes == [] then [] else Written(uuid, done, writes[0]) + WrittenAll(uuid, true, writes[1..])
  }

  function Payloads(writes: seq<Write>): seq<byte> {
    if writes == [] then [] else writes[0].payload + Payloads(writes[1..])
  }

  // -----------------------------------------------------------------------------------------
  // Round trips
  // -----------------------------------------------------------------------------------------

  /** At a frame boundary, in padding mode. */
  ghost predicate AtFrame(s: Unpad) {
    && s.uuidDone && !s.done && !s.direct
    && s.remainingCommand == 5 && s.remainingContent == -1 && s.remainingPadding == -1
  }

  /** The boundary state after a frame with the given command. */
  function AfterFrame(s: Unpad, command: Command): Unpad {
    match command
    case PaddingContinue => s.(currentCommand := 0)
    case _ =>
      s.(currentCommand := command.ToByte(), remainingCommand := 0, remainingContent := 0,
         remainingPadding := 0, done := true, direct := command.PaddingDirect?)
  }

  lemma {:induction false} RunCons(s: Unpad, w: seq<byte>, rest: seq<byte>)
    requires w != []
    ensures Run(s, w + rest) == Then(Step(s, w[0]), w[1..] + rest)
  {
    assert (w + rest)[1..] == w[1..] + rest;
  }

  lemma {:induction false} RunHeader(s: Unpad, h: seq<byte>, rest: seq<byte>)
    requires AtFrame(s) && |h| == 5
    ensures Run(s, h + rest)
         == Then(Settle(s.(remainingCommand := 0, remainingContent := Be16(h[1], h[2]),
                           remainingPadding := Be16(h[3], h[4]), currentCommand := h[0]), []), rest)
  {
    RunCons(s, h, rest);
    var s1 := HeaderByte(s, h[0]);
    RunCons(s1, h[1..], rest);
    var s2 := HeaderByte(s1, h[1]);
    RunCons(s2, h[1..][1..], rest);
    var s3 := HeaderByte(s2, h[2]);
    RunCons(s3, h[1..][1..][1..], rest);
    var s4 := HeaderByte(s3, h[3]);
    RunCons(s4, h[1..][1..][1..][1..], rest);
    assert h[1..][1..][1..][1..][1..] + rest == rest;
  }

  lemma {:induction false} HeaderLengths(c: Command, n: nat, m: nat)
    requires n < 65536 && m < 65536
    ensures var h := Header(c, n, m); |h| == 5 && Be16(h[1], h[2]) == n && Be16(h[3], h[4]) == m
  {
    Be16Exact(n);
    Be16Exact(m);
  }

  /** A frame whose lengths fit in 16 bits yields its payload and leaves the next boundary state. */
  lemma {:induction false} RunFrame(s: Unpad, c: Command, payload: seq<byte>, padding: seq<byte>, rest: seq<byte>)
    requires AtFrame(s) && |payload| < 65536 && |padding| < 65536
    ensures Run(s, FrameBytes(c, payload, padding) + rest)
         == Then(Outcome(AfterFrame(s, c), payload, None), rest)
  {
    var h := Header(c, |payload|, |padding|);
    HeaderLengths(c, |payload|, |padding|);
    var body := payload + (padding + rest);
    assert FrameBytes(c, payload, padding) + rest == h + body;
    RunHeader(s, h, body);
    var s0 := s.(remainingCommand := 0, remainingContent := |payload|,
                 remainingPadding := |padding|, currentCommand := h[0]);
    RunBody(s0, payload, padding, rest);
    assert Settle(s0.(remainingContent := 0, remainingPadding := 0), payload)
        == Outcome(AfterFrame(s, c), payload, None);
  }

  lemma {:induction false} RunBody(s: Unpad, payload: seq<byte>, padding: seq<byte>, rest: seq<byte>)
    requires s.uuidDone && !s.done && s.remainingCommand == 0
    requires s.remainingContent == |payload| && s.remainingPadding == |padding|
    ensures Then(Settle(s, []), payload + (padding + rest))
         == Then(Settle(s.(remainingContent := 0, remainingPadding := 0), payload), rest)
  {
    var s1 := s.(remainingContent := 0);
    var body := payload + (padding + rest);
    if payload != [] {
      RunContent(s, body, |payload|);
      assert body[..|payload|] == payload;
      assert body[|payload|..] == padding + rest;
    } else {
      assert body == padding + rest;
    }
    assert Then(Settle(s, []), body) == Then(Settle(s1, payload), padding + rest);
    if padding != [] {
      RunPadding(s1, padding + rest, |padding|);
      assert (padding + rest)[|padding|..] == rest;
      ThenPrepend(payload, Settle(s1.(remainingPadding := 0), []), rest);
      assert payload + [] == payload;
    } else {
      assert padding + rest == rest;
    }
  }

  lemma {:induction false} SameHeader(c: Command, n: nat, m: nat)
    ensures Header(c, n, m) == Header(c, n % 65536, m % 65536)
  {
    SameDigits(n);
    SameDigits(m);
    assert Header(c, n, m) == [c.ToByte()] + PutBe16(n) + PutBe16(m);
    assert Header(c, n % 65536, m % 65536) == [c.ToByte()] + PutBe16(n % 65536) + PutBe16(m % 65536);
  }

  /**
    A payload too long for its length field, without padding: the field keeps the low 16 bits, and
    the bytes it does not cover are read as if they came after the frame.
   */
  lemma {:induction false} RunOversizedFrame(s: Unpad, c: Command, payload: seq<byte>, rest: seq<byte>)
    requires AtFrame(s)
    ensures var n := |payload| % 65536;
            var o := Run(s, FrameBytes(c, payload, []) + rest);
            o == Then(Outcome(AfterFrame(s, c), payload[..n], None), payload[n..] + rest)
  {
    var n := |payload| % 65536;
    var head, tail := payload[..n], payload[n..];
    SameHeader(c, |payload|, 0);
    assert FrameBytes(c, payload, []) + rest == FrameBytes(c, head, []) + (tail + rest);
    RunFrame(s, c, head, [], tail + rest);
  }

  /** After a terminating command those bytes pass through raw, so nothing is lost at any length. */
  lemma {:induction false} RunLastFrame(s: Unpad, c: Command, payload: seq<byte>, rest: seq<byte>)
    requires AtFrame(s) && !c.PaddingContinue?
    ensures Run(s, FrameBytes(c, payload, []) + rest) == Outcome(AfterFrame(s, c), payload + rest, None)
  {
    var n := |payload| % 65536;
    RunOversizedFrame(s, c, payload, rest);
    RunDone(AfterFrame(s, c), payload[n..] + rest);
    assert payload[..n] + (payload[n..] + rest) == payload + rest;
  }

  /**
    A last frame of any lengths: both length fields keep their low 16 bits, and what lies behind
    the bytes they cover passes through raw.
   */
  lemma {:induction false} RunPaddedLastFrame(s: Unpad, c: Command, payload: seq<byte>, padding: seq<byte>,
                                              rest: seq<byte>)
    requires AtFrame(s) && !c.PaddingContinue?
    ensures var n, m := |payload| % 65536, |padding| % 65536;
            Run(s, FrameBytes(c, payload, padding) + rest)
              == Outcome(AfterFrame(s, c), payload[..n] + (payload + padding + rest)[n + m..], None)
  {
    var n, m := |payload| % 65536, |padding| % 65536;
    var body := payload + padding + rest;
    var head, middle, tail := body[..n], body[n..n + m], body[n + m..];
    SameHeader(c, |payload|, |padding|);
    assert body == head + middle + tail;
    assert FrameBytes(c, payload, padding) + rest == FrameBytes(c, head, middle) + tail;
    RunFrame(s, c, head, middle, tail);
    RunDone(AfterFrame(s, c), tail);
    assert head == payload[..n];
  }

  /** A frame with any other command byte delivers its payload and then fails. */
  lemma {:induction false} RunBadFrame(s: Unpad, b: byte, payload: seq<byte>, padding: seq<byte>, rest: seq<byte>)
    requires AtFrame(s) && b > 2 && |payload| < 65536 && |padding| < 65536
    ensures var o := Run(s, [b] + PutBe16(|payload|) + PutBe16(|padding|) + (payload + (padding + rest)));
            o.out == payload && o.error == Some(BadCommand(b))
  {
    var h := [b] + PutBe16(|payload|) + PutBe16(|padding|);
    Be16Exact(|payload|);
    Be16Exact(|padding|);
    assert h[1] == PutBe16(|payload|)[0] && h[2] == PutBe16(|payload|)[1];
    assert h[3] == PutBe16(|padding|)[0] && h[4] == PutBe16(|padding|)[1];
    RunHeader(s, h, payload + (padding + rest));
    var s0 := s.(remainingCommand := 0, remainingContent := |payload|, remainingPadding := |padding|,
                 currentCommand := b);
    RunBody(s0, payload, padding, rest);
  }

  /** After a continuing command they are taken for the next header: this payload is rejected. */
  lemma {:induction false} OversizedContinueFails(s: Unpad, payload: seq<byte>)
    requires AtFrame(s) && |payload| == 65536 && payload[..5] == [0x42, 0, 0, 0, 0]
    ensures Run(s, FrameBytes(PaddingContinue, payload, [])).error == Some(BadCommand(0x42))
  {
    RunOversizedFrame(s, PaddingContinue, payload, []);
    var h, t := payload[..5], AfterFrame(s, PaddingContinue);
    assert FrameBytes(PaddingContinue, payload, []) + [] == FrameBytes(PaddingContinue, payload, []);
    assert payload[0..] + [] == h + payload[5..];
    RunHeader(t, h, payload[5..]);
  }

  lemma {:induction false} OutputIsNoLonger(s: Unpad, w: seq<byte>)
    ensures |Run(s, w).out| <= |w|
    decreases |w|
  {
    if w != [] {
      OutputIsNoLonger(Step(s, w[0]).state, w[1..]);
    }
  }

  /** A continuing frame by itself is recovered exactly when its length fits in 16 bits. */
  lemma {:induction false} ContinueExactly(s: Unpad, payload: seq<byte>)
    requires AtFrame(s)
    ensures var recovered := Outcome(AfterFrame(s, PaddingContinue), payload, None);
            Run(s, FrameBytes(PaddingContinue, payload, [])) == recovered <==> |payload| < 65536
  {
    var n, t := |payload| % 65536, AfterFrame(s, PaddingContinue);
    var frame, tail := FrameBytes(PaddingContinue, payload, []), payload[n..];
    assert frame + [] == frame && tail + [] == tail;
    RunOversizedFrame(s, PaddingContinue, payload, []);
    if |payload| < 65536 {
      assert payload[..n] + [] == payload;
    } else {
      // the first byte that is not covered is read as a command and is lost
      OutputIsNoLonger(HeaderByte(t, tail[0]), tail[1..]);
      assert Step(t, tail[0]) == Outcome(HeaderByte(t, tail[0]), [], None);
      assert |Run(t, tail).out| < |tail|;
    }
  }

  /** The state after a matching UUID prefix. */
  function AfterPrefix(uuid: seq<byte>): Unpad {
    Start(uuid).(uuidBuf := uuid, uuidDone := true, remainingCommand := 5)
  }

  lemma {:induction false} RunPrefix(uuid: seq<byte>, rest: seq<byte>)
    requires |uuid| == 16
    ensures Run(Start(uuid), uuid + rest) == Run(AfterPrefix(uuid), rest)
  {
    var w := uuid + rest;
    RunWholeUuid(Start(uuid), w, 16);
    assert [] + w[..16] == uuid && w[16..] == rest;
  }

  /** A stream that does not begin with the UUID fails at its sixteenth byte, however it is cut. */
  lemma {:induction false} WrongUuidFails(uuid: seq<byte>, wire: seq<byte>, chunks: seq<seq<byte>>)
    requires |uuid| == 16 && |wire| >= 16 && wire[..16] != uuid && Flatten(chunks) == wire
    ensures var o := FeedAll(Outcome(Start(uuid), [], None), chunks);
            o.error == Some(UuidMismatch) && o.out == []
  {
    FeedFresh(uuid, chunks);
    RunWholeUuid(Start(uuid), wire, 16);
    assert [] + wire[..16] == wire[..16];
  }

  datatype Frame = Frame(payload: seq<byte>, padding: seq<byte>)

  ghost predicate Fits(f: Frame) {
    |f.payload| < 65536 && |f.padding| < 65536
  }

  /** Frames that all announce another one, then a last frame with a terminating command. */
  function Framed(frames: seq<Frame>, last: Frame, c: Command): seq<byte> {
    if frames == [] then FrameBytes(c, last.payload, last.padding)
    else FrameBytes(PaddingContinue, frames[0].payload, frames[0].padding) + Framed(frames[1..], last, c)
  }

  function Contents(frames: seq<Frame>): seq<byte> {
    if frames == [] then [] else frames[0].payload + Contents(frames[1..])
  }

  lemma {:induction false} RunFramed(s: Unpad, frames: seq<Frame>, last: Frame, c: Command, tail: seq<byte>)
    requires AtFrame(s) && !c.PaddingContinue?
    requires forall i :: 0 <= i < |frames| ==> Fits(frames[i])
    requires Fits(last) || last.padding == []
    ensures var o := Run(s, Framed(frames, last, c) + tail);
            && o.error.None? && o.out == Contents(frames) + last.payload + tail
            && o.state.done && o.state.direct == c.PaddingDirect?
    decreases |frames|
  {
    if frames == [] {
      if last.padding == [] {
        RunLastFrame(s, c, last.payload, tail);
      } else {
        RunFrame(s, c, last.payload, last.padding, tail);
        RunDone(AfterFrame(s, c), tail);
      }
      assert [] + last.payload + tail == last.payload + tail;
    } else {
      var f, more := frames[0], frames[1..];
      var rest := Framed(more, last, c) + tail;
      assert Framed(frames, last, c) + tail == FrameBytes(PaddingContinue, f.payload, f.padding) + rest;
      RunFrame(s, PaddingContinue, f.payload, f.padding, rest);
      RunFramed(AfterFrame(s, PaddingContinue), more, last, c, tail);
      Assoc(f.payload, Contents(more) + last.payload, tail);
      Assoc(f.payload, Contents(more), last.payload);
    }
  }

  /**
    Vision round trip.  Any frames with 16-bit lengths, then a terminating frame, then any raw
    tail, cut into any chunks, come out as the payloads followed by the tail.
   */
  lemma {:induction false} RoundTrip(uuid: seq<byte>, frames: seq<Frame>, last: Frame, c: Command, tail: seq<byte>,
                  chunks: seq<seq<byte>>)
    requires |uuid| == 16 && !c.PaddingContinue?
    requires forall i :: 0 <= i < |frames| ==> Fits(frames[i])
    requires Fits(last) || last.padding == []
    requires Flatten(chunks) == uuid + Framed(frames, last, c) + tail
    ensures var o := FeedAll(Outcome(Start(uuid), [], None), chunks);
            && o.error.None? && o.out == Contents(frames) + last.payload + tail
            && o.state.done && o.state.direct == c.PaddingDirect?
  {
    var rest := Framed(frames, last, c) + tail;
    assert uuid + Framed(frames, last, c) + tail == uuid + rest;
    FeedFresh(uuid, chunks);
    RunPrefix(uuid, rest);
    RunFramed(AfterPrefix(uuid), frames, last, c, tail);
  }

  lemma {:induction false} FeedFresh(uuid: seq<byte>, chunks: seq<seq<byte>>)
    ensures FeedAll(Outcome(Start(uuid), [], None), chunks) == Run(Start(uuid), Flatten(chunks))
  {
    ChunkingInvariance(Outcome(Start(uuid), [], None), chunks);
    var o := Run(Start(uuid), Flatten(chunks));
    assert [] + o.out == o.out;
  }

  lemma {:induction false} WrittenRaw(uuid: seq<byte>, writes: seq<Write>)
    ensures WrittenAll(uuid, true, writes) == Payloads(writes)
    decreases |writes|
  {
    if writes != [] {
      WrittenRaw(uuid, writes[1..]);
    }
  }

  // Whether the peer recovers what a `PadState` writes.

  /** Dropping as many bytes as the padding has, behind the part the length field covers, changes nothing. */
  predicate Unshifted(payload: seq<byte>, padding: seq<byte>) {
    var n := |payload| % 65536;
    (payload + padding)[n + |padding|..] == payload[n..]
  }

  lemma {:induction false} ShiftExactly(p: seq<byte>, q: seq<byte>, rest: seq<byte>, n: nat)
    requires n <= |p|
    ensures p[..n] + (p + q + rest)[n + |q|..] == p + rest <==> (p + q)[n + |q|..] == p[n..]
  {
    var a, b := (p + q)[n + |q|..], p[n..];
    assert (p + q + rest)[n + |q|..] == a + rest;
    assert p + rest == p[..n] + (b + rest);
    if p[..n] + (a + rest) == p[..n] + (b + rest) {
      assert a + rest == (p[..n] + (a + rest))[n..] == (p[..n] + (b + rest))[n..] == b + rest;
      assert a == (a + rest)[..|a|] == (b + rest)[..|b|] == b;
    }
  }

  lemma {:induction false} DefaultPaddingIsSmall(len: nat, r: nat)
    ensures PaddingLength(len, true, DEFAULT_SEED, r) < 1400
  {
    var low := len % 0x1_0000_0000;
    if low < 900 {
      assert AsI32(len) == low;
    }
  }

  /**
    Any run of `PadState` calls, with any payloads, random numbers and chunking, passes the peer
    without an error: done iff there was a call, direct iff the first one was `IntoDirect`.  The
    payloads are recovered exactly when the first one is not shifted by its padding.
   */
  lemma {:induction false} PeerReadsWrites(uuid: seq<byte>, writes: seq<Write>, chunks: seq<seq<byte>>)
    requires |uuid| == 16 && forall w :: w in writes ==> !w.command.PaddingContinue?
    requires Flatten(chunks) == WrittenAll(uuid, false, writes)
    ensures var o := FeedAll(Outcome(Start(uuid), [], None), chunks);
            && o.error.None? && o.state.done == (writes != [])
            && o.state.direct == (writes != [] && writes[0].command.PaddingDirect?)
            && (o.out == Payloads(writes) <==>
                  writes != [] ==> Unshifted(writes[0].payload, writes[0].Padding()))
  {
    FeedFresh(uuid, chunks);
    if writes != [] {
      var w, tail := writes[0], Payloads(writes[1..]);
      WrittenRaw(uuid, writes[1..]);
      DefaultPaddingIsSmall(|w.payload|, w.r);
      FirstWriteExactly(uuid, w.command, w.payload, w.Padding(), tail);
    }
  }

  lemma {:induction false} FirstWriteExactly(uuid: seq<byte>, c: Command, p: seq<byte>, q: seq<byte>, rest: seq<byte>)
    requires |uuid| == 16 && !c.PaddingContinue? && |q| < 65536
    ensures var o := Run(Start(uuid), uuid + FrameBytes(c, p, q) + rest);
            && o.error.None? && o.state.done && o.state.direct == c.PaddingDirect?
            && (o.out == p + rest <==> Unshifted(p, q))
  {
    var frame := FrameBytes(c, p, q);
    Assoc(uuid, frame, rest);
    RunPrefix(uuid, frame + rest);
    RunPaddedLastFrame(AfterPrefix(uuid), c, p, q, rest);
    ShiftExactly(p, q, rest, |p| % 65536);
  }

  /** A first payload below 2 GiB has padding only if it is short, so it is never shifted. */
  lemma {:induction false} ShortWriteUnshifted(w: Write)
    requires |w.payload| < 0x8000_0000
    ensures !w.Panics() && Unshifted(w.payload, w.Padding())
  {
    DefaultPaddingIsSmall(|w.payload|, w.r);
    PaddingBounds(|w.payload|, true, DEFAULT_SEED, w.r);
    var p, q := w.payload, w.Padding();
    if |p| <= 2027 {
      assert (p + q)[|p| + |q|..] == [] == p[|p|..];
    } else {
      assert p + q == p;
    }
  }

  /** Every run whose first payload is below 2 GiB is recovered by the peer. */
  lemma {:induction false} PeerRecoversWrites(uuid: seq<byte>, writes: seq<Write>, chunks: seq<seq<byte>>)
    requires |uuid| == 16 && forall w :: w in writes ==> !w.command.PaddingContinue?
    requires writes != [] ==> |writes[0].payload| < 0x8000_0000
    requires Flatten(chunks) == WrittenAll(uuid, false, writes)
    ensures var o := FeedAll(Outcome(Start(uuid), [], None), chunks);
            && o.error.None? && o.out == Payloads(writes)
            && o.state.done == (writes != [])
            && o.state.direct == (writes != [] && writes[0].command.PaddingDirect?)
  {
    PeerReadsWrites(uuid, writes, chunks);
    if writes != [] {
      ShortWriteUnshifted(writes[0]);
    }
  }

  /**
    Lengths at which the padding drawn cannot hurt: the length field covers the payload, or the
    truncated length leaves no room for padding, or it is so negative that every draw panics.
   */
  predicate SafeLength(len: nat) {
    len < 65536 || AsI32(len) >= 2027 || AsI32(len) < -276
  }

  lemma {:induction false} SafeLengthUnshifted(w: Write)
    requires SafeLength(|w.payload|) && !w.Panics()
    ensures Unshifted(w.payload, w.Padding())
  {
    var p, q := w.payload, w.Padding();
    if |p| < 65536 {
      assert (p + q)[|p| + |q|..] == [] == p[|p|..];
    } else {
      SafeLengthDraw(|p|, w.r);
      assert p + q == p;
    }
  }

  lemma {:induction false} SafeLengthDraw(len: nat, r: nat)
    requires 65536 <= len && SafeLength(len)
    ensures var n := PaddingLength(len, true, DEFAULT_SEED, r); n == 0 || TooLong(true, len, n)
  {
    var n, contentLen := PaddingLength(len, true, DEFAULT_SEED, r), AsI32(len);
    if contentLen < 0 {
      assert n <= 255;
    } else {
      assert AsI32(FRAME_MAX - HEADER_OVERHEAD - contentLen) <= 0;
    }
  }

  /** At any other length the draw of 255 gives padding that is written. */
  lemma {:induction false} UnsafeLengthDraw(len: nat)
    requires !SafeLength(len)
    ensures var n := PaddingLength(len, true, DEFAULT_SEED, 255); n > 0 && !TooLong(true, len, n)
  {
    var contentLen := AsI32(len);
    assert AsI32(FRAME_MAX - HEADER_OVERHEAD - contentLen) > 0;
    DefaultPaddingIsSmall(len, 255);
  }

  /** Noise whose last byte is not the payload's last byte shows the shift. */
  lemma {:induction false} UnsafeLengthShifts(payload: seq<byte>, command: Command) returns (w: Write)
    requires !SafeLength(|payload|)
    ensures w.payload == payload && w.command == command && !w.Panics()
    ensures !Unshifted(payload, w.Padding())
  {
    UnsafeLengthDraw(|payload|);
    var last := payload[|payload| - 1];
    var other: byte := if last == 0 then 1 else 0;
    w := Write(payload, command, 255, (_: nat) => other);
    var n, q := |payload| % 65536, w.Padding();
    var all := payload + q;
    assert q[|q| - 1] == other;
    assert all[n + |q|..][|payload| - n - 1] == all[|all| - 1] == other;
    assert payload[n..][|payload| - n - 1] == last;
  }

  /** A run that begins with `w`, cut into `chunks`, gives the peer the payloads, if `w` returns. */
  ghost predicate Recovered(uuid: seq<byte>, w: Write, later: seq<Write>, chunks: seq<seq<byte>>) {
    !w.Panics() && Flatten(chunks) == WrittenAll(uuid, false, [w] + later) ==>
      FeedAll(Outcome(Start(uuid), [], None), chunks).out == w.payload + Payloads(later)
  }

  /**
    A run whose first call writes `payload` is recovered whatever padding is drawn, and however the
    stream is cut, exactly when the length of the payload is safe.
   */
  lemma {:induction false} PeerRecoversExactly(uuid: seq<byte>, payload: seq<byte>, command: Command, later: seq<Write>)
    requires |uuid| == 16 && !command.PaddingContinue? && forall w :: w in later ==> !w.command.PaddingContinue?
    ensures (forall r: nat, fill: nat -> byte, chunks: seq<seq<byte>> ::
               Recovered(uuid, Write(payload, command, r, fill), later, chunks))
       <==> SafeLength(|payload|)
  {
    if SafeLength(|payload|) {
      forall r: nat, fill: nat -> byte, chunks: seq<seq<byte>>
        ensures Recovered(uuid, Write(payload, command, r, fill), later, chunks)
      {
        RecoveredIfUnshifted(uuid, Write(payload, command, r, fill), later, chunks);
        if !Write(payload, command, r, fill).Panics() {
          SafeLengthUnshifted(Write(payload, command, r, fill));
        }
      }
    } else {
      var w := UnsafeLengthShifts(payload, command);
      var chunks := [WrittenAll(uuid, false, [w] + later)];
      assert Flatten(chunks) == chunks[0] + Flatten(chunks[1..]) == chunks[0] by {
        assert chunks[1..] == [];
      }
      RecoveredIfUnshifted(uuid, w, later, chunks);
      assert w == Write(payload, command, w.r, w.fill);
    }
  }

  lemma {:induction false} RecoveredIfUnshifted(uuid: seq<byte>, w: Write, later: seq<Write>, chunks: seq<seq<byte>>)
    requires |uuid| == 16 && !w.command.PaddingContinue?
    requires forall v :: v in later ==> !v.command.PaddingContinue?
    ensures !w.Panics() && Flatten(chunks) == WrittenAll(uuid, false, [w] + later) ==>
              (Recovered(uuid, w, later, chunks) <==> Unshifted(w.payload, w.Padding()))
  {
    var writes := [w] + later;
    if Flatten(chunks) == WrittenAll(uuid, false, writes) {
      PeerReadsWrites(uuid, writes, chunks);
      assert writes[1..] == later;
    }
  }

  /** A first payload of 4 GiB, a one and then zeros: its length is truncated to 0 and its head is lost. */
  lemma {:induction false} LongWriteFails(uuid: seq<byte>, w: Write, chunks: seq<seq<byte>>)
    requires |w.payload| == 0x1_0000_0000 && w.payload[0] == 1
    requires forall i :: 0 < i < |w.payload| ==> w.payload[i] == 0
    requires |uuid| == 16 && !w.command.PaddingContinue? && Flatten(chunks) == WrittenAll(uuid, false, [w])
    ensures !w.Panics() && FeedAll(Outcome(Start(uuid), [], None), chunks).out != w.payload
  {
    LongWriteIsShifted(w);
    PeerReadsWrites(uuid, [w], chunks);
    assert Payloads([w]) == w.payload + [] == w.payload;
  }

  lemma {:induction false} LongWriteIsShifted(w: Write)
    requires |w.payload| == 0x1_0000_0000 && w.payload[0] == 1
    requires forall i :: 0 < i < |w.payload| ==> w.payload[i] == 0
    ensures !w.Panics() && !Unshifted(w.payload, w.Padding())
  {
    var p, q := w.payload, w.Padding();
    DefaultPaddingIsSmall(|p|, w.r);
    assert AsI32(|p|) == 0;
    assert |q| >= 900;
    assert (p + q)[0 + |q|..][0] == p[|q|] == 0;
  }
}
