/**
  The OrcaX frame codec: eight header bytes and a payload, target addresses, and the padding that
  a sender may append to a payload and two readers strip in different ways.
 */
module Orca {
  import opened Bytes

  datatype FrameType =
    | Data | StreamOpen | StreamClose | Ping | Pong | GoAway | WindowUpdate | UdpDatagram | Passthrough
  {
    function ToByte(): byte {
      match this
      case Data => 0
      case StreamOpen => 1
      case StreamClose => 2
      case Ping => 3
      case Pong => 4
      case GoAway => 5
      case WindowUpdate => 6
      case UdpDatagram => 7
      case Passthrough => 8
    }
  }

  function FrameTypeFromByte(b: byte): (t: Option<FrameType>)
    ensures t.None? <==> b > 8
    ensures t.Some? ==> t.value.ToByte() == b
    ensures forall u: FrameType :: u.ToByte() == b ==> t == Some(u)
  {
    match b
    case 0 => Some(Data)
    case 1 => Some(StreamOpen)
    case 2 => Some(StreamClose)
    case 3 => Some(Ping)
    case 4 => Some(Pong)
    case 5 => Some(GoAway)
    case 6 => Some(WindowUpdate)
    case 7 => Some(UdpDatagram)
    case 8 => Some(Passthrough)
    case _ => None
  }

  datatype Frame = Frame(frameType: FrameType, flags: byte, streamId: nat, payload: seq<byte>) {
    ghost predicate Encodable() {
      streamId < 0x1_0000_0000 && |payload| < 65536
    }
  }

  /** The PADDED flag is the bit of value 4. */
  predicate IsPadded(flags: byte) {
    (flags / 4) % 2 == 1
  }

  /** Type, flags, stream id and the low 16 bits of the payload length. */
  function Header(f: Frame): (h: seq<byte>)
    ensures |h| == 8
  {
    [f.frameType.ToByte(), f.flags] + PutBe32(f.streamId) + PutBe16(|f.payload|)
  }

  function Encode(f: Frame): seq<byte> {
    Header(f) + f.payload
  }

  /** `Frame::decode`'s way: the last byte says how much to cut, and one byte more is cut. */
  function DecodeStrip(flags: byte, payload: seq<byte>): seq<byte> {
    if IsPadded(flags) && payload != [] then
      var padLen := payload[|payload| - 1];
      if padLen < |payload| then payload[..|payload| - padLen - 1] else payload
    else payload
  }

  /** The client reader's way: the last byte says how much to cut. */
  function ClientStrip(flags: byte, payload: seq<byte>): seq<byte> {
    if IsPadded(flags) && payload != [] then
      var padLen := payload[|payload| - 1];
      if 0 < padLen < |payload| then payload[..|payload| - padLen] else payload
    else payload
  }

  datatype DecodeError = ShortFrameHeader | UnknownFrameType(b: byte) | ShortFramePayload

  datatype Decoded = Decoded(frame: Frame, rest: seq<byte>) | Undecodable(error: DecodeError)

  /** Reads one frame from a stream; `rest` is what the reader has not consumed. */
  function Decode(s: seq<byte>): Decoded {
    if |s| < 8 then Undecodable(ShortFrameHeader)
    else match FrameTypeFromByte(s[0])
         case None => Undecodable(UnknownFrameType(s[0]))
         case Some(t) =>
           var length := Be16(s[6], s[7]);
           if |s| < 8 + length then Undecodable(ShortFramePayload)
           else Decoded(Frame(t, s[1], Be32(s[2], s[3], s[4], s[5]), DecodeStrip(s[1], s[8..8 + length])),
                        s[8 + length..])
  }

  // -----------------------------------------------------------------------------------------
  // Streams of frames
  // -----------------------------------------------------------------------------------------

  function EncodeAll(fs: seq<Frame>): seq<byte> {
    if fs == [] then [] else Encode(fs[0]) + EncodeAll(fs[1..])
  }

  /** Frames read one after another until the stream ends; `None` on an error. */
  function DecodeAll(s: seq<byte>): Option<seq<Frame>>
    decreases |s|
  {
    if s == [] then Some([])
    else match Decode(s)
         case Undecodable(_) => None
         case Decoded(f, rest) =>
           (match DecodeAll(rest)
            case None => None
            case Some(fs) => Some([f] + fs))
  }

  /** One frame in front of anything; padding is stripped the way `Frame::decode` does it. */
  lemma {:induction false} DecodeEncode(f: Frame, rest: seq<byte>)
    requires f.Encodable()
    ensures Decode(Encode(f) + rest) == Decoded(f.(payload := DecodeStrip(f.flags, f.payload)), rest)
  {
    var h, s := Header(f), Encode(f) + rest;
    HeaderInverse(f);
    assert s == h + (f.payload + rest);
    assert forall i :: 0 <= i < 8 ==> s[i] == h[i];
    assert s[8..8 + |f.payload|] == f.payload;
    assert s[8 + |f.payload|..] == rest;
  }

  lemma {:induction false} HeaderInverse(f: Frame)
    requires f.Encodable()
    ensures var h := Header(f);
            && FrameTypeFromByte(h[0]) == Some(f.frameType) && h[1] == f.flags
            && Be32(h[2], h[3], h[4], h[5]) == f.streamId && Be16(h[6], h[7]) == |f.payload|
  {
    Be32Inverse(f.streamId);
    Be16Exact(|f.payload|);
    HeaderBytes([f.frameType.ToByte(), f.flags], PutBe32(f.streamId), PutBe16(|f.payload|));
  }

  lemma {:induction false} HeaderBytes(a: seq<byte>, id: seq<byte>, len: seq<byte>)
    requires |a| == 2 && |id| == 4 && |len| == 2
    ensures var h := a + id + len;
            && h[0] == a[0] && h[1] == a[1] && Be16(h[6], h[7]) == Be16(len[0], len[1])
            && Be32(h[2], h[3], h[4], h[5]) == Be32(id[0], id[1], id[2], id[3])
  {
  }

  /** The layout on the wire: type, flags, 32-bit stream id, 16-bit length, payload. */
  lemma {:induction false} FrameLayout(f: Frame)
    requires f.Encodable()
    ensures var s := Encode(f);
            && |s| == 8 + |f.payload| && s[0] == f.frameType.ToByte() && s[1] == f.flags && s[8..] == f.payload
            && 0x100_0000 * (s[2] as int) + 0x1_0000 * (s[3] as int) + 0x100 * (s[4] as int) + s[5] as int
               == f.streamId
            && 0x100 * (s[6] as int) + s[7] as int == |f.payload|
  {
    HeaderInverse(f);
    assert forall i :: 0 <= i < 8 ==> Encode(f)[i] == Header(f)[i];
  }

  /** A frame cut short anywhere is an error, never a shorter frame. */
  lemma {:induction false} TruncatedFrame(f: Frame, k: nat)
    requires f.Encodable() && k < |Encode(f)|
    ensures Decode(Encode(f)[..k]) == Undecodable(if k < 8 then ShortFrameHeader else ShortFramePayload)
  {
    var h, s := Header(f), Encode(f)[..k];
    HeaderInverse(f);
    if k >= 8 {
      assert forall i :: 0 <= i < 8 ==> s[i] == h[i];
    }
  }

  /** The nine type bytes as they stand on the wire; any other is refused before the payload is read. */
  lemma {:induction false} TypeBytes(s: seq<byte>)
    requires |s| >= 8 && s[6] == s[7] == 0
    ensures var known := [Data, StreamOpen, StreamClose, Ping, Pong, GoAway, WindowUpdate, UdpDatagram, Passthrough];
            var d := Decode(s);
            if s[0] < 9 then d.Decoded? && d.frame.frameType == known[s[0]] && d.rest == s[8..]
            else d == Undecodable(UnknownFrameType(s[0]))
  {
  }

  /** Decoding the concatenated encodings of unpadded frames gives the frames back. */
  lemma {:induction false} FrameStream(fs: seq<Frame>)
    requires forall i :: 0 <= i < |fs| ==> fs[i].Encodable() && !IsPadded(fs[i].flags)
    ensures DecodeAll(EncodeAll(fs)) == Some(fs)
    decreases |fs|
  {
    if fs != [] {
      assert fs[0].Encodable() && !IsPadded(fs[0].flags);
      DecodeEncode(fs[0], EncodeAll(fs[1..]));
      assert DecodeStrip(fs[0].flags, fs[0].payload) == fs[0].payload;
      FrameStream(fs[1..]);
      assert [fs[0]] + fs[1..] == fs;
    }
  }

  // -----------------------------------------------------------------------------------------
  // Target addresses
  // -----------------------------------------------------------------------------------------

  datatype Address = IPv4(octets4: seq<byte>) | Domain(name: seq<byte>) | IPv6(octets6: seq<byte>)

  datatype TargetAddr = TargetAddr(addr: Address, port: nat)

  /** Octets of the right number, a domain of valid UTF-8: what the Rust types guarantee. */
  ghost predicate Typed(utf8: Utf8, t: TargetAddr) {
    && t.port < 65536
    && match t.addr
       case IPv4(o) => |o| == 4
       case Domain(d) => utf8(d)
       case IPv6(o) => |o| == 16
  }

  function AddressBytes(a: Address): seq<byte> {
    match a
    case IPv4(o) => [1] + o
    case Domain(d) => [2, |d| % 256] + d
    case IPv6(o) => [3] + o
  }

  /** The payload of a StreamOpen frame: command 1 (TCP), port, address. */
  function StreamOpenPayload(t: TargetAddr): seq<byte> {
    [1] + PutBe16(t.port) + AddressBytes(t.addr)
  }

  function StreamOpenFrame(streamId: nat, t: TargetAddr): Frame {
    Frame(StreamOpen, 0, streamId, StreamOpenPayload(t))
  }

  datatype AddressError =
    | TooShort | TruncatedIPv4 | TruncatedDomain | InvalidUtf8 | TruncatedIPv6 | UnknownType(b: byte)

  datatype Parsed = Parsed(target: TargetAddr, consumed: nat) | Unparsed(error: AddressError)

  function ParseTarget(utf8: Utf8, data: seq<byte>): (r: Parsed)
    ensures r.Parsed? ==> r.consumed <= |data|
  {
    if |data| < 4 then Unparsed(TooShort)
    else
      var port := Be16(data[0], data[1]);
      match data[2]
      case 1 =>
        if |data| < 7 then Unparsed(TruncatedIPv4) else Parsed(TargetAddr(IPv4(data[3..7]), port), 7)
      case 2 =>
        var end := 4 + (data[3] as int);
        if |data| < end then Unparsed(TruncatedDomain)
        else if !utf8(data[4..end]) then Unparsed(InvalidUtf8)
        else Parsed(TargetAddr(Domain(data[4..end]), port), end)
      case 3 =>
        if |data| < 19 then Unparsed(TruncatedIPv6) else Parsed(TargetAddr(IPv6(data[3..19]), port), 19)
      case b => Unparsed(UnknownType(b))
  }

  /**
    The target behind the command byte of a StreamOpen payload is recovered, with whatever
    follows left alone, exactly when a domain has at most 255 bytes.
   */
  lemma {:induction false} TargetRoundTrip(utf8: Utf8, t: TargetAddr, rest: seq<byte>)
    requires Typed(utf8, t)
    ensures ParseTarget(utf8, (StreamOpenPayload(t) + rest)[1..]) == Parsed(t, |StreamOpenPayload(t)| - 1)
       <==> (t.addr.Domain? ==> |t.addr.name| < 256)
  {
    var p, a := PutBe16(t.port), AddressBytes(t.addr);
    var data := (StreamOpenPayload(t) + rest)[1..];
    Be16Inverse(t.port);
    assert data == p + a + rest;
    assert data[0] == p[0] && data[1] == p[1] && data[2] == a[0] && data[3] == (a + rest)[1];
    match t.addr {
      case IPv4(o) => assert data[3..7] == o;
      case Domain(d) =>
        var n := |d| % 256;
        assert data[4..4 + n] == d[..n];
        assert |d| < 256 ==> d[..n] == d;
      case IPv6(o) => assert data[3..19] == o;
    }
  }

  /** The layout of a StreamOpen payload: command 1, 16-bit port, address type and address. */
  lemma {:induction false} TargetLayout(utf8: Utf8, t: TargetAddr)
    requires Typed(utf8, t)
    ensures var s := StreamOpenPayload(t);
            && |s| > 4 && s[0] == 1 && 0x100 * (s[1] as int) + s[2] as int == t.port
            && match t.addr
               case IPv4(o) => s[3] == 1 && s[4..] == o
               case Domain(d) => s[3] == 2 && s[4] == |d| % 256 && s[5..] == d
               case IPv6(o) => s[3] == 3 && s[4..] == o
  {
    var s, p := StreamOpenPayload(t), PutBe16(t.port);
    Be16Inverse(t.port);
    assert s[1] == p[0] && s[2] == p[1];
  }

  /** Which bytes are a target, and what each error means. */
  lemma {:induction false} TargetErrors(utf8: Utf8, data: seq<byte>)
    ensures var r := ParseTarget(utf8, data);
            if |data| < 4 then r == Unparsed(TooShort)
            else if data[2] == 1 then if |data| < 7 then r == Unparsed(TruncatedIPv4) else r.Parsed? && r.consumed == 7
            else if data[2] == 2 then
              var end := 4 + data[3] as int;
              if |data| < end then r == Unparsed(TruncatedDomain)
              else if !utf8(data[4..end]) then r == Unparsed(InvalidUtf8)
              else r.Parsed? && r.consumed == end
            else if data[2] == 3 then
              if |data| < 19 then r == Unparsed(TruncatedIPv6) else r.Parsed? && r.consumed == 19
            else r == Unparsed(UnknownType(data[2]))
  {
  }

  /** A target cut short anywhere is an error that names the part that is missing. */
  lemma {:induction false} TruncatedTarget(utf8: Utf8, t: TargetAddr, k: nat)
    requires Typed(utf8, t) && (t.addr.Domain? ==> |t.addr.name| < 256) && k < |StreamOpenPayload(t)| - 1
    ensures ParseTarget(utf8, StreamOpenPayload(t)[1..][..k])
         == Unparsed(if k < 4 then TooShort
                     else match t.addr
                          case IPv4(_) => TruncatedIPv4
                          case Domain(_) => TruncatedDomain
                          case IPv6(_) => TruncatedIPv6)
  {
    var p, a := PutBe16(t.port), AddressBytes(t.addr);
    var data := StreamOpenPayload(t)[1..][..k];
    assert StreamOpenPayload(t)[1..] == p + a;
    if k >= 4 {
      assert data[2] == a[0] && data[3] == a[1];
    }
  }

  /**
    End to end: a StreamOpen frame in front of anything yields its stream id and target, and leaves
    the rest, exactly when a domain has at most 255 bytes.
   */
  lemma {:induction false} StreamOpenRoundTrip(utf8: Utf8, streamId: nat, t: TargetAddr, rest: seq<byte>)
    requires Typed(utf8, t) && streamId < 0x1_0000_0000
    ensures var d := Decode(Encode(StreamOpenFrame(streamId, t)) + rest);
            && d.Decoded? && d.rest == rest && d.frame.streamId == streamId && d.frame.payload != []
            && ParseTarget(utf8, d.frame.payload[1..]) == Parsed(t, |d.frame.payload| - 1)
            <==> (t.addr.Domain? ==> |t.addr.name| < 256)
  {
    var f := StreamOpenFrame(streamId, t);
    TargetRoundTrip(utf8, t, []);
    assert f.payload + [] == f.payload;
    if f.Encodable() {
      DecodeEncode(f, rest);
    } else {
      OversizedLeavesMore(f, rest);
    }
  }

  lemma {:induction false} OversizedLeavesMore(f: Frame, rest: seq<byte>)
    requires |f.payload| >= 65536
    ensures var d := Decode(Encode(f) + rest); d.Decoded? ==> |d.rest| > |rest|
  {
    var s := Encode(f) + rest;
    assert Be16(s[6], s[7]) < 65536;
  }

  // -----------------------------------------------------------------------------------------
  // Padding
  // -----------------------------------------------------------------------------------------

  const MAX_PADDING: nat := 256

  type PaddingSize = n: nat | n <= MAX_PADDING

  /** `n` bytes of noise, the last of which is replaced by the low byte of `n`. */
  function PaddingBytes(noise: nat -> byte, n: nat): (p: seq<byte>)
    ensures |p| == n && (n > 0 ==> p[n - 1] == n % 256) && forall i :: 0 <= i < n - 1 ==> p[i] == noise(i)
  {
    seq<byte>(n, i requires 0 <= i => if i == n - 1 then n % 256 else noise(i))
  }

  /** The frame with `n` bytes of padding, `n` being what the generator drew. */
  function WithPadding(f: Frame, noise: nat -> byte, n: nat): (r: Frame)
    requires n <= MAX_PADDING
    ensures IsPadded(r.flags) && (r.flags == f.flags || r.flags == f.flags + 4)
    ensures r.payload == f.payload + PaddingBytes(noise, n)
    ensures r.frameType == f.frameType && r.streamId == f.streamId
  {
    f.(payload := f.payload + PaddingBytes(noise, n), flags := if IsPadded(f.flags) then f.flags else f.flags + 4)
  }

  /**
    The client reader returns the payload exactly when 1 to 255 bytes were added to a non-empty
    payload, or none were and the payload's own last byte happens not to look like a length.
   */
  lemma {:induction false} ClientStripExactly(f: Frame, noise: nat -> byte, n: nat)
    requires n <= MAX_PADDING
    ensures var r := WithPadding(f, noise, n);
            ClientStrip(r.flags, r.payload) == f.payload <==>
              (if f.payload == [] then n == 0
               else if n == 0 then !(0 < f.payload[|f.payload| - 1] < |f.payload|)
               else n <= 255)
  {
    var p, q := f.payload, PaddingBytes(noise, n);
    var r := WithPadding(f, noise, n);
    if n == 0 {
      assert r.payload == p;
      assert p != [] && 0 < p[|p| - 1] < |p| ==> |ClientStrip(r.flags, p)| < |p|;
    } else {
      var last := r.payload[|r.payload| - 1];
      assert last == q[n - 1];
      if n == 256 || p == [] {
        assert ClientStrip(r.flags, r.payload) == r.payload && |r.payload| > |p|;
      } else {
        assert last == n && (p + q)[..|p|] == p;
      }
    }
  }

  /** `Frame::decode` returns a padded payload only when no byte was added and nothing is cut. */
  lemma {:induction false} DecodeStripExactly(f: Frame, noise: nat -> byte, n: nat)
    requires n <= MAX_PADDING
    ensures var r := WithPadding(f, noise, n);
            && (DecodeStrip(r.flags, r.payload) == f.payload <==>
                  n == 0 && (f.payload == [] || f.payload[|f.payload| - 1] >= |f.payload|))
            && (0 < n < 256 && f.payload != [] ==>
                  DecodeStrip(r.flags, r.payload) == f.payload[..|f.payload| - 1])
  {
    var p, q := f.payload, PaddingBytes(noise, n);
    var r := WithPadding(f, noise, n);
    if n == 0 {
      assert r.payload == p;
    } else {
      var last := r.payload[|r.payload| - 1];
      assert last == q[n - 1];
      if n == 256 {
        assert last == 0 && |DecodeStrip(r.flags, r.payload)| == |p| + 255;
      } else {
        assert last == n;
        if p == [] {
          assert DecodeStrip(r.flags, r.payload) == r.payload;
        } else {
          assert (p + q)[..|p| - 1] == p[..|p| - 1];
        }
      }
    }
  }

  /** On the wire: a padded Data frame loses its last byte in one reader and nothing in the other. */
  lemma {:induction false} ReadersDisagree(f: Frame, noise: nat -> byte, n: nat, rest: seq<byte>)
    requires f.frameType.Data? && f.payload != [] && 0 < n < 256
    requires WithPadding(f, noise, n).Encodable()
    ensures var r := WithPadding(f, noise, n);
            && Decode(Encode(r) + rest) == Decoded(r.(payload := f.payload[..|f.payload| - 1]), rest)
            && ClientStrip(r.flags, r.payload) == f.payload
  {
    DecodeEncode(WithPadding(f, noise, n), rest);
    DecodeStripExactly(f, noise, n);
    ClientStripExactly(f, noise, n);
  }

  // -----------------------------------------------------------------------------------------
  // The client's reader task
  // -----------------------------------------------------------------------------------------

  /** What the reader does with a frame; other frame types are ignored. */
  datatype Event = Deliver(streamId: nat, data: seq<byte>) | Close(closed: nat) | SendPong

  function EventOf(typ: byte, flags: byte, streamId: nat, payload: seq<byte>): seq<Event> {
    match typ
    case 0 => [Deliver(streamId, ClientStrip(flags, payload))]
    case 1 => [Deliver(streamId, payload)]
    case 2 => [Close(streamId)]
    case 3 => [SendPong]
    case _ => []
  }

  /** The events of a stream, up to its end or a frame cut short. */
  function Events(s: seq<byte>): seq<Event>
    decreases |s|
  {
    if |s| < 8 || |s| < 8 + Be16(s[6], s[7]) then []
    else
      FirstEvent(s) + Events(s[8 + Be16(s[6], s[7])..])
  }

  function FirstEvent(s: seq<byte>): seq<Event>
    requires |s| >= 8 && |s| >= 8 + Be16(s[6], s[7])
  {
    EventOf(s[0], s[1], Be32(s[2], s[3], s[4], s[5]), s[8..8 + Be16(s[6], s[7])])
  }

  method ReadFrames(s: seq<byte>) returns (events: seq<Event>)
    ensures events == Events(s)
  {
    events := [];
    var at := 0;
    assert s[0..] == s;
    while at + 8 <= |s|
      invariant 0 <= at <= |s|
      invariant events + Events(s[at..]) == Events(s)
      decreases |s| - at
    {
      var length := Be16(s[at + 6], s[at + 7]);
      if at + 8 + length > |s| {
        break;
      }
      EventsFrom(s, at, at + 8 + length);
      var event := EventOf(s[at], s[at + 1], Be32(s[at + 2], s[at + 3], s[at + 4], s[at + 5]),
                           s[at + 8..at + 8 + length]);
      Assoc(events, event, Events(s[at + 8 + length..]));
      events := events + event;
      at := at + 8 + length;
    }
    assert Events(s[at..]) == [];
  }

  lemma {:induction false} EventsFrom(s: seq<byte>, at: nat, end: nat)
    requires at + 8 <= |s| && end == at + 8 + Be16(s[at + 6], s[at + 7]) <= |s|
    ensures var id := Be32(s[at + 2], s[at + 3], s[at + 4], s[at + 5]);
            Events(s[at..]) == EventOf(s[at], s[at + 1], id, s[at + 8..end]) + Events(s[end..])
  {
    var t := s[at..];
    assert t[8..end - at] == s[at + 8..end] && t[end - at..] == s[end..] by {
      DropSlice(s, at, 8, end - at);
    }
    assert Events(t) == FirstEvent(t) + Events(t[end - at..]);
  }

  /** A frame as built, and the padding added to it, if any. */
  datatype Sent = Sent(frame: Frame, padding: Option<PaddingSize>, noise: nat -> byte) {
    function OnWire(): Frame {
      if padding.Some? then WithPadding(frame, noise, padding.value) else frame
    }

    /**
      Whether the reader's event is that of the frame before padding: the reader strips Data frames
      only, and takes a last byte that could be a length for one.
     */
    ghost predicate Harmless() {
      var p := frame.payload;
      match frame.frameType
      case Data =>
        if padding.Some? && padding.value > 0 then p != [] && padding.value <= 255
        else (padding.None? && !IsPadded(frame.flags)) || p == [] || !(0 < p[|p| - 1] < |p|)
      case StreamOpen => padding.None? || padding.value == 0
      case _ => true
    }
  }

  function SentBytes(ss: seq<Sent>): seq<byte> {
    if ss == [] then [] else Encode(ss[0].OnWire()) + SentBytes(ss[1..])
  }

  /** The event a frame stands for, as the sender means it. */
  function MeantEvent(f: Frame): seq<Event> {
    match f.frameType
    case Data => [Deliver(f.streamId, f.payload)]
    case StreamOpen => [Deliver(f.streamId, f.payload)]
    case StreamClose => [Close(f.streamId)]
    case Ping => [SendPong]
    case Pong => []
    case GoAway => []
    case WindowUpdate => []
    case UdpDatagram => []
    case Passthrough => []
  }

  function Meant(ss: seq<Sent>): seq<Event> {
    if ss == [] then [] else MeantEvent(ss[0].frame) + Meant(ss[1..])
  }

  function WireEvent(f: Frame): seq<Event> {
    EventOf(f.frameType.ToByte(), f.flags, f.streamId, f.payload)
  }

  /** Less than a header, or less than the payload a header announces. */
  ghost predicate CutShort(tail: seq<byte>) {
    |tail| < 8 || |tail| < 8 + 256 * (tail[6] as int) + tail[7] as int
  }

  /**
    Of a stream of frames, and perhaps a frame cut short behind them, the reader sees exactly what the
    sender meant with the whole frames if and only if every one of them is harmless.
   */
  lemma {:induction false} ReaderRecoversExactly(ss: seq<Sent>, tail: seq<byte>)
    requires CutShort(tail) && forall i :: 0 <= i < |ss| ==> ss[i].OnWire().Encodable()
    ensures Events(SentBytes(ss) + tail) == Meant(ss) <==> forall i :: 0 <= i < |ss| ==> ss[i].Harmless()
    decreases |ss|
  {
    if ss == [] {
      assert SentBytes(ss) + tail == tail;
    } else {
      var s, more := ss[0], ss[1..];
      var rest := SentBytes(more) + tail;
      assert s.OnWire().Encodable();
      Assoc(Encode(s.OnWire()), SentBytes(more), tail);
      EventsOfFrame(s.OnWire(), rest);
      HarmlessExactly(s);
      ReaderRecoversExactly(more, tail);
      SameSplit(WireEvent(s.OnWire()), MeantEvent(s.frame), Events(rest), Meant(more));
      assert forall i :: 1 <= i < |ss| ==> ss[i] == more[i - 1];
      assert forall i :: 0 <= i < |more| ==> more[i] == ss[i + 1];
    }
  }

  lemma {:induction false} SameSplit(a: seq<Event>, b: seq<Event>, c: seq<Event>, d: seq<Event>)
    requires |a| == |b|
    ensures a + c == b + d <==> a == b && c == d
  {
    if a + c == b + d {
      assert a == (a + c)[..|a|] == (b + d)[..|b|] == b;
      assert c == (a + c)[|a|..] == (b + d)[|b|..] == d;
    }
  }

  lemma {:induction false} HarmlessExactly(s: Sent)
    ensures WireEvent(s.OnWire()) == MeantEvent(s.frame) <==> s.Harmless()
    ensures |WireEvent(s.OnWire())| == |MeantEvent(s.frame)|
  {
    var f, w := s.frame, s.OnWire();
    if s.padding.Some? {
      ClientStripExactly(f, s.noise, s.padding.value);
      assert w.payload == f.payload <==> s.padding.value == 0 by {
        assert |w.payload| == |f.payload| + s.padding.value;
        assert s.padding.value == 0 ==> w.payload == f.payload;
      }
    } else {
      assert |ClientStrip(f.flags, f.payload)| < |f.payload| || ClientStrip(f.flags, f.payload) == f.payload;
    }
  }

  lemma {:induction false} EventsOfFrame(f: Frame, rest: seq<byte>)
    requires f.Encodable()
    ensures Events(Encode(f) + rest) == WireEvent(f) + Events(rest)
  {
    var h, s := Header(f), Encode(f) + rest;
    HeaderInverse(f);
    assert s == h + (f.payload + rest);
    assert forall i :: 0 <= i < 8 ==> s[i] == h[i];
    assert s[8..8 + |f.payload|] == f.payload;
    assert s[8 + |f.payload|..] == rest;
  }
}
