/**
  The sending path of a TLS connection: plaintext buffered before the handshake ends, fragments
  encrypted into records, and a key-update record that is encrypted at once but put on the wire
  by the next write.

  `Sender` is the path as a state machine with its history; `CommonState` is the code, proved to
  follow it.  Sequence numbers stay below the soft limit: at the limit itself
  `send_single_fragment` calls `send_close_notify`, which calls it again without progress.
 */
module Sending {
  import opened Bytes
  import opened Records
  import opened VecBuf

  datatype ContentType = ApplicationData | Handshake | Alert

  /** What is sent as a message: application data goes through the write path instead. */
  type MessageType = t: ContentType | !t.ApplicationData? witness Alert

  datatype Record = Record(mark: Mark, encrypter: Encrypter, typ: ContentType, plain: seq<byte>)

  /** The fragmenter: consecutive pieces of at most `max` bytes. */
  function Fragments(data: seq<byte>, max: nat): (fs: seq<seq<byte>>)
    requires max > 0
    ensures NoEmptyChunk(fs) && forall i :: 0 <= i < |fs| ==> |fs[i]| <= max
    decreases |data|
  {
    if data == [] then []
    else if |data| <= max then [data]
    else [data[..max]] + Fragments(data[max..], max)
  }

  lemma {:induction false} FragmentsJoin(data: seq<byte>, max: nat)
    requires max > 0
    ensures Flatten(Fragments(data, max)) == data
    decreases |data|
  {
    if data != [] {
      var fs := Fragments(data, max);
      if |data| <= max {
        assert fs[1..] == [];
      } else {
        FragmentsJoin(data[max..], max);
        assert fs[1..] == Fragments(data[max..], max);
        assert data == data[..max] + data[max..];
      }
    }
  }

  // -----------------------------------------------------------------------------------------
  // The sending path as a state machine
  // -----------------------------------------------------------------------------------------

  /**
    `wire` is every record ever appended to the outgoing buffer, `encrypted` every record in the
    order of encryption, `accepted` every plaintext byte reported as written.
   */
  datatype Sender = Sender(
    maxFrag: nat,
    maySend: bool,
    layer: Layer,
    pending: seq<seq<byte>>,
    queued: Option<Record>,
    wire: seq<Record>,
    encrypted: seq<Record>,
    accepted: seq<byte>)

  datatype Op =
    | Write(data: seq<byte>, taken: nat)
    | StartTraffic
    | KeyUpdate(next: Encrypter)
    | SetEncrypter(first: Encrypter)
    | SendMessage(typ: MessageType, payload: seq<byte>)

  function NewRecord(s: Sender, typ: ContentType, plain: seq<byte>): Record
    requires s.layer.installed != []
  {
    Record(s.layer.Next(), s.layer.installed[|s.layer.installed| - 1], typ, plain)
  }

  function SendOne(s: Sender, typ: ContentType, plain: seq<byte>): Sender
    requires s.layer.installed != []
  {
    if s.layer.Exhausted() then s
    else
      var r := NewRecord(s, typ, plain);
      s.(layer := Encrypted(s.layer), wire := s.wire + [r], encrypted := s.encrypted + [r])
  }

  function SendAll(s: Sender, typ: ContentType, plains: seq<seq<byte>>): Sender
    requires s.layer.installed != []
    decreases |plains|
  {
    if plains == [] then s else SendAll(SendOne(s, typ, plains[0]), typ, plains[1..])
  }

  function SendQueued(s: Sender): Sender {
    if s.queued.Some? then s.(wire := s.wire + [s.queued.value], queued := None) else s
  }

  function SendPending(s: Sender): Sender
    requires s.layer.installed != [] && s.maxFrag > 0
    decreases |s.pending|
  {
    if s.pending == [] then s
    else
      SendPendingAfterOne(s);
      SendPending(SendAll(s.(pending := s.pending[1..]), ApplicationData, Fragments(s.pending[0], s.maxFrag)))
  }

  lemma {:induction false} SendPendingAfterOne(s: Sender)
    requires s.layer.installed != [] && s.maxFrag > 0 && s.pending != []
    ensures var t := s.(pending := s.pending[1..]);
            var u := SendAll(t, ApplicationData, Fragments(s.pending[0], s.maxFrag));
            u.pending == t.pending && u.layer.installed == s.layer.installed && u.maxFrag == s.maxFrag
  {
    SendAllFrame(s.(pending := s.pending[1..]), ApplicationData, Fragments(s.pending[0], s.maxFrag));
  }

  /** What sending never touches. */
  ghost predicate SameRest(s: Sender, s': Sender) {
    && s' == s.(layer := s'.layer, wire := s'.wire, encrypted := s'.encrypted)
    && s'.layer.installed == s.layer.installed && s'.layer.state == s.layer.state
  }

  lemma {:induction false} SendAllFrame(s: Sender, typ: ContentType, plains: seq<seq<byte>>)
    requires s.layer.installed != []
    ensures SameRest(s, SendAll(s, typ, plains)) && s.wire <= SendAll(s, typ, plains).wire
    decreases |plains|
  {
    if plains != [] {
      SendAllFrame(SendOne(s, typ, plains[0]), typ, plains[1..]);
    }
  }

  function FragmentCount(pending: seq<seq<byte>>, max: nat): nat
    requires max > 0
  {
    if pending == [] then 0 else |Fragments(pending[0], max)| + FragmentCount(pending[1..], max)
  }

  /** Encrypting `n` more records stays clear of the soft limit. */
  predicate Room(s: Sender, n: nat) {
    s.layer.state.Active? && s.layer.installed != [] && s.layer.writeSeq + n <= SEQ_SOFT_LIMIT
  }

  /** When a call may happen: the code's own assertions, and room below the soft limit. */
  predicate Enabled(s: Sender, op: Op) {
    && s.maxFrag > 0
    && match op
       case Write(data, taken) =>
         taken <= |data| && (s.maySend && data != [] ==> Room(s, |Fragments(data[..taken], s.maxFrag)|))
       case StartTraffic => s.pending != [] ==> Room(s, FragmentCount(s.pending, s.maxFrag))
       case KeyUpdate(_) => s.maySend && Room(s, 0) && !s.layer.Exhausted()
       case SetEncrypter(_) => true
       case SendMessage(_, payload) => Room(s, |Fragments(payload, s.maxFrag)|)
  }

  /** Before the handshake ends plaintext is buffered, afterwards it is encrypted; never empty. */
  function SendPlain(s: Sender, data: seq<byte>, taken: nat): Sender
    requires Enabled(s, Write(data, taken))
  {
    var t := s.(accepted := s.accepted + data[..taken]);
    if !s.maySend then
      if taken == 0 then t else t.(pending := t.pending + [data[..taken]])
    else if data == [] then t
    else SendAll(t, ApplicationData, Fragments(data[..taken], s.maxFrag))
  }

  function Step(s: Sender, op: Op): Sender
    requires Enabled(s, op)
  {
    match op
    case Write(data, taken) => SendPlain(SendQueued(s), data, taken)
    case StartTraffic =>
      var t := s.(maySend := true);
      if t.pending == [] then t else SendPending(t)
    case KeyUpdate(next) =>
      if s.queued.Some? then s
      else
        var r := NewRecord(s, Handshake, KEY_UPDATE_NOTIFY);
        s.(layer := WithEncrypter(Encrypted(s.layer), next).(state := Active),
           queued := Some(r), encrypted := s.encrypted + [r])
    case SetEncrypter(first) => s.(layer := WithEncrypter(s.layer, first).(state := Active))
    case SendMessage(typ, payload) => SendAll(s, typ, Fragments(payload, s.maxFrag))
  }

  /** A KeyUpdate handshake message that does not ask for another one. */
  const KEY_UPDATE_NOTIFY: seq<byte> := [24, 0, 0, 1, 0]

  /** A fatal alert with the description illegal_parameter. */
  const ILLEGAL_PARAMETER: seq<byte> := [2, 0x2f]

  /** The state after a run; `None` if some call of the run could not happen. */
  function Run(s: Sender, ops: seq<Op>): Option<Sender>
    decreases |ops|
  {
    if ops == [] then Some(s)
    else if !Enabled(s, ops[0]) then None
    else Run(Step(s, ops[0]), ops[1..])
  }

  function Fresh(maxFrag: nat): Sender {
    Sender(maxFrag, false, FreshLayer, [], None, [], [], [])
  }

  // -----------------------------------------------------------------------------------------
  // Invariants
  // -----------------------------------------------------------------------------------------

  function Marks(rs: seq<Record>): (ms: seq<Mark>)
    ensures |ms| == |rs|
  {
    seq(|rs|, i requires 0 <= i < |rs| => rs[i].mark)
  }

  function Queue(q: Option<Record>): seq<Record> {
    if q.Some? then [q.value] else []
  }

  /** The bytes carried by the records of one type. */
  function DataOf(rs: seq<Record>, typ: ContentType): seq<byte> {
    if rs == [] then []
    else DataOf(rs[..|rs| - 1], typ) + if rs[|rs| - 1].typ == typ then rs[|rs| - 1].plain else []
  }

  function AppData(rs: seq<Record>): seq<byte> {
    DataOf(rs, ApplicationData)
  }

  lemma {:induction false} DataSnoc(rs: seq<Record>, r: Record, typ: ContentType)
    ensures DataOf(rs + [r], typ) == DataOf(rs, typ) + if r.typ == typ then r.plain else []
  {
    assert (rs + [r])[..|rs|] == rs;
  }

  lemma {:induction false} AppDataSnoc(rs: seq<Record>, r: Record)
    ensures AppData(rs + [r]) == AppData(rs) + if r.typ.ApplicationData? then r.plain else []
  {
    DataSnoc(rs, r, ApplicationData);
  }

  /** Encryptions are marked in order, and nothing encrypted has been lost or overtaken. */
  ghost predicate Ordered(s: Sender) {
    && LayerInv(s.layer)
    && Marks(s.encrypted) == s.layer.marks
    && Outgoing(s) == s.encrypted
  }

  /** What has been put on the wire, and the key update that waits for the next write. */
  function Outgoing(s: Sender): seq<Record> {
    s.wire + Queue(s.queued)
  }

  /** Plaintext waits only before the handshake ends, a key update only afterwards. */
  ghost predicate Settled(s: Sender) {
    (s.maySend ==> s.pending == []) && (s.queued.Some? ==> s.maySend)
  }

  /** Accepted bytes are on the wire or pending, in order. */
  ghost predicate Conserved(s: Sender) {
    && AppData(s.wire) + Flatten(s.pending) == s.accepted
    && (s.queued.Some? ==> s.queued.value.typ.Handshake?)
  }

  lemma {:induction false} SendAllCarries(s: Sender, typ: ContentType, plains: seq<seq<byte>>)
    requires Room(s, |plains|)
    ensures var s' := SendAll(s, typ, plains);
            && SameRest(s, s') && s'.layer.writeSeq == s.layer.writeSeq + |plains|
            && AppData(s'.wire) == AppData(s.wire) + if typ.ApplicationData? then Flatten(plains) else []
    decreases |plains|
  {
    if plains != [] {
      AppDataSnoc(s.wire, NewRecord(s, typ, plains[0]));
      SendAllCarries(SendOne(s, typ, plains[0]), typ, plains[1..]);
      if typ.ApplicationData? {
        Assoc(AppData(s.wire), plains[0], Flatten(plains[1..]));
      }
    }
  }

  lemma {:induction false} SendPendingCarries(s: Sender)
    requires s.maxFrag > 0 && Room(s, FragmentCount(s.pending, s.maxFrag))
    ensures var s' := SendPending(s);
            && SameRest(s.(pending := []), s') && s.wire <= s'.wire
            && AppData(s'.wire) == AppData(s.wire) + Flatten(s.pending)
    decreases |s.pending|
  {
    if s.pending != [] {
      var t := s.(pending := s.pending[1..]);
      var fs := Fragments(s.pending[0], s.maxFrag);
      SendAllFrame(t, ApplicationData, fs);
      SendAllCarries(t, ApplicationData, fs);
      FragmentsJoin(s.pending[0], s.maxFrag);
      SendPendingCarries(SendAll(t, ApplicationData, fs));
      Assoc(AppData(s.wire), s.pending[0], Flatten(s.pending[1..]));
    }
  }

  lemma {:induction false} SendOneKeeps(s: Sender, typ: ContentType, plain: seq<byte>)
    requires Ordered(s) && s.queued.None? && Room(s, 1)
    ensures Ordered(SendOne(s, typ, plain))
  {
    var s' := SendOne(s, typ, plain);
    assert Some(s'.layer) == StepLayer(s.layer, Encrypt);
    assert Marks(s'.encrypted) == s'.layer.marks;
    assert s.wire == s.encrypted;
  }

  lemma {:induction false} SendAllKeeps(s: Sender, typ: ContentType, plains: seq<seq<byte>>)
    requires Ordered(s) && s.queued.None? && Room(s, |plains|)
    ensures Ordered(SendAll(s, typ, plains))
    decreases |plains|
  {
    if plains != [] {
      SendOneKeeps(s, typ, plains[0]);
      SendAllKeeps(SendOne(s, typ, plains[0]), typ, plains[1..]);
    }
  }

  lemma {:induction false} SendPendingKeeps(s: Sender)
    requires Ordered(s) && s.queued.None? && s.maxFrag > 0 && Room(s, FragmentCount(s.pending, s.maxFrag))
    ensures Ordered(SendPending(s))
    decreases |s.pending|
  {
    if s.pending != [] {
      var t := s.(pending := s.pending[1..]);
      var fs := Fragments(s.pending[0], s.maxFrag);
      SendAllKeeps(t, ApplicationData, fs);
      SendAllCarries(t, ApplicationData, fs);
      SendPendingKeeps(SendAll(t, ApplicationData, fs));
    }
  }

  lemma {:induction false} SendQueuedKeeps(s: Sender)
    ensures Outgoing(SendQueued(s)) == Outgoing(s)
    ensures Conserved(s) ==> AppData(SendQueued(s).wire) == AppData(s.wire)
  {
    if s.queued.Some? {
      AppDataSnoc(s.wire, s.queued.value);
    }
  }

  // -----------------------------------------------------------------------------------------
  // Plaintext is conserved
  // -----------------------------------------------------------------------------------------

  lemma {:induction false} StepSettles(s: Sender, op: Op)
    requires Settled(s) && Enabled(s, op)
    ensures Settled(Step(s, op))
  {
    match op {
      case Write(data, taken) =>
        if s.maySend && data != [] {
          var t := SendQueued(s).(accepted := s.accepted + data[..taken]);
          SendAllCarries(t, ApplicationData, Fragments(data[..taken], s.maxFrag));
        }
      case StartTraffic =>
        if s.pending != [] {
          SendPendingCarries(s.(maySend := true));
        }
      case KeyUpdate(_) =>
      case SetEncrypter(_) =>
      case SendMessage(typ, payload) => SendAllCarries(s, typ, Fragments(payload, s.maxFrag));
    }
  }

  lemma {:induction false} WriteConserves(s: Sender, data: seq<byte>, taken: nat)
    requires Settled(s) && Conserved(s) && Enabled(s, Write(data, taken))
    ensures Conserved(Step(s, Write(data, taken)))
  {
    SendQueuedKeeps(s);
    var t := SendQueued(s).(accepted := s.accepted + data[..taken]);
    if !s.maySend {
      FlattenSnoc(t.pending, data[..taken]);
      Assoc(AppData(t.wire), Flatten(t.pending), data[..taken]);
    } else if data != [] {
      SendAllCarries(t, ApplicationData, Fragments(data[..taken], s.maxFrag));
      FragmentsJoin(data[..taken], s.maxFrag);
    }
  }

  lemma {:induction false} StepConserves(s: Sender, op: Op)
    requires Settled(s) && Conserved(s) && Enabled(s, op)
    ensures Conserved(Step(s, op))
  {
    match op {
      case Write(data, taken) => WriteConserves(s, data, taken);
      case StartTraffic =>
        if s.pending != [] {
          SendPendingCarries(s.(maySend := true));
        }
      case KeyUpdate(_) =>
      case SetEncrypter(_) =>
      case SendMessage(typ, payload) => SendAllCarries(s, typ, Fragments(payload, s.maxFrag));
    }
  }

  lemma {:induction false} RunConserves(s: Sender, ops: seq<Op>)
    requires Settled(s) && Conserved(s) && Run(s, ops).Some?
    ensures Settled(Run(s, ops).value) && Conserved(Run(s, ops).value)
    decreases |ops|
  {
    if ops != [] {
      StepSettles(s, ops[0]);
      StepConserves(s, ops[0]);
      RunConserves(Step(s, ops[0]), ops[1..]);
    }
  }

  /** The prefixes of the written data that the calls reported as accepted, joined. */
  function AcceptedBytes(ops: seq<Op>): seq<byte> {
    if ops == [] then []
    else (if ops[0].Write? && ops[0].taken <= |ops[0].data| then ops[0].data[..ops[0].taken] else [])
         + AcceptedBytes(ops[1..])
  }

  lemma {:induction false} StepAccepts(s: Sender, op: Op)
    requires Enabled(s, op)
    ensures Step(s, op).accepted == s.accepted + if op.Write? then op.data[..op.taken] else []
  {
    match op {
      case Write(data, taken) =>
        if s.maySend && data != [] {
          var t := SendQueued(s).(accepted := s.accepted + data[..taken]);
          SendAllFrame(t, ApplicationData, Fragments(data[..taken], s.maxFrag));
        }
      case StartTraffic =>
        if s.pending != [] {
          SendPendingCarries(s.(maySend := true));
        }
      case KeyUpdate(_) =>
      case SetEncrypter(_) =>
      case SendMessage(typ, payload) => SendAllFrame(s, typ, Fragments(payload, s.maxFrag));
    }
  }

  lemma {:induction false} RunAccepts(s: Sender, ops: seq<Op>)
    requires Run(s, ops).Some?
    ensures Run(s, ops).value.accepted == s.accepted + AcceptedBytes(ops)
    decreases |ops|
  {
    if ops != [] {
      StepAccepts(s, ops[0]);
      var first := if ops[0].Write? then ops[0].data[..ops[0].taken] else [];
      RunAccepts(Step(s, ops[0]), ops[1..]);
      Assoc(s.accepted, first, AcceptedBytes(ops[1..]));
    }
  }

  lemma {:induction false} StepStarts(s: Sender, op: Op)
    requires Enabled(s, op)
    ensures Step(s, op).maySend == (s.maySend || op == StartTraffic)
  {
    match op {
      case Write(data, taken) =>
        if s.maySend && data != [] {
          var t := SendQueued(s).(accepted := s.accepted + data[..taken]);
          SendAllFrame(t, ApplicationData, Fragments(data[..taken], s.maxFrag));
        }
      case StartTraffic =>
        if s.pending != [] {
          SendPendingCarries(s.(maySend := true));
        }
      case KeyUpdate(_) =>
      case SetEncrypter(_) =>
      case SendMessage(typ, payload) => SendAllFrame(s, typ, Fragments(payload, s.maxFrag));
    }
  }

  lemma {:induction false} RunStarts(s: Sender, ops: seq<Op>)
    requires Run(s, ops).Some?
    ensures Run(s, ops).value.maySend == (s.maySend || StartTraffic in ops)
    decreases |ops|
  {
    if ops != [] {
      StepStarts(s, ops[0]);
      RunStarts(Step(s, ops[0]), ops[1..]);
      assert ops == [ops[0]] + ops[1..];
    }
  }

  /**
    In every run: records in order, then the buffer, are exactly the accepted bytes; once outgoing
    traffic has started, the records alone.
   */
  lemma {:induction false} PlaintextConserved(maxFrag: nat, ops: seq<Op>)
    requires Run(Fresh(maxFrag), ops).Some?
    ensures var s := Run(Fresh(maxFrag), ops).value;
            && AppData(s.wire) + Flatten(s.pending) == AcceptedBytes(ops)
            && (StartTraffic in ops ==> AppData(s.wire) == AcceptedBytes(ops))
  {
    RunStarts(Fresh(maxFrag), ops);
    RunConserves(Fresh(maxFrag), ops);
    RunAccepts(Fresh(maxFrag), ops);
    var s := Run(Fresh(maxFrag), ops).value;
    assert [] + AcceptedBytes(ops) == AcceptedBytes(ops);
    if s.maySend {
      assert AppData(s.wire) + [] == AppData(s.wire);
    }
  }

  // -----------------------------------------------------------------------------------------
  // When wire order is encryption order
  // -----------------------------------------------------------------------------------------

  /** A message put on the wire directly must not overtake a queued key update. */
  predicate InTurn(s: Sender, op: Op) {
    op.SendMessage? && op.payload != [] ==> s.queued.None?
  }

  lemma {:induction false} WriteKeeps(s: Sender, data: seq<byte>, taken: nat)
    requires Ordered(s) && Enabled(s, Write(data, taken))
    ensures Ordered(Step(s, Write(data, taken)))
  {
    SendQueuedKeeps(s);
    var t := SendQueued(s).(accepted := s.accepted + data[..taken]);
    assert Outgoing(t) == Outgoing(SendQueued(s));
    if s.maySend && data != [] {
      SendAllKeeps(t, ApplicationData, Fragments(data[..taken], s.maxFrag));
    }
  }

  lemma {:induction false} KeyUpdateKeeps(s: Sender, next: Encrypter)
    requires Ordered(s) && Enabled(s, KeyUpdate(next))
    ensures Ordered(Step(s, KeyUpdate(next)))
  {
    if s.queued.None? {
      var s' := Step(s, KeyUpdate(next));
      var l := Encrypted(s.layer);
      assert LayerInv(l) by { assert Some(l) == StepLayer(s.layer, Encrypt); }
      assert Some(s'.layer) == StepLayer(l, Set(next));
      assert Marks(s'.encrypted) == s'.layer.marks;
    }
  }

  lemma {:induction false} StepKeeps(s: Sender, op: Op)
    requires Settled(s) && Ordered(s) && Enabled(s, op) && InTurn(s, op)
    ensures Ordered(Step(s, op))
  {
    match op {
      case Write(data, taken) => WriteKeeps(s, data, taken);
      case StartTraffic =>
        if s.pending != [] {
          SendPendingKeeps(s.(maySend := true));
        }
      case KeyUpdate(next) => KeyUpdateKeeps(s, next);
      case SetEncrypter(first) => assert Some(Step(s, op).layer) == StepLayer(s.layer, Set(first));
      case SendMessage(typ, payload) =>
        if payload != [] {
          SendAllKeeps(s, typ, Fragments(payload, s.maxFrag));
        }
    }
  }

  /** Every message of the run that is not empty finds no key update queued. */
  ghost predicate AllInTurn(s: Sender, ops: seq<Op>)
    decreases |ops|
  {
    ops == [] || (Enabled(s, ops[0]) ==> InTurn(s, ops[0]) && AllInTurn(Step(s, ops[0]), ops[1..]))
  }

  ghost predicate InOrder(rs: seq<Record>) {
    Increasing(Marks(rs))
  }

  /** What remains of records in order is in order. */
  lemma {:induction false} PartInOrder(a: seq<Record>, b: seq<Record>, c: seq<Record>)
    requires InOrder(a + b + c)
    ensures InOrder(a + c)
  {
    var all, ms, part := a + b + c, Marks(a + b + c), Marks(a + c);
    assert forall i :: 0 <= i < |a| ==> part[i] == all[i].mark == ms[i];
    assert forall i :: |a| <= i < |part| ==> part[i] == all[i + |b|].mark == ms[i + |b|];
  }

  lemma {:induction false} PrefixInOrder(a: seq<Record>, b: seq<Record>)
    requires a <= b && InOrder(b)
    ensures InOrder(a)
  {
    assert a + b[|a|..] + [] == b && a + [] == a;
    PartInOrder(a, b[|a|..], []);
  }

  /** A broken order stays broken: steps only add records, behind the others or before the queue. */
  lemma {:induction false} StepRepairsNothing(s: Sender, op: Op)
    requires Settled(s) && Enabled(s, op) && InOrder(Outgoing(Step(s, op)))
    ensures InOrder(Outgoing(s))
  {
    var s' := Step(s, op);
    match op {
      case Write(data, taken) =>
        SendQueuedKeeps(s);
        var t := SendQueued(s).(accepted := s.accepted + data[..taken]);
        if s.maySend && data != [] {
          SendAllFrame(t, ApplicationData, Fragments(data[..taken], s.maxFrag));
        }
        PrefixInOrder(Outgoing(s), Outgoing(s'));
      case StartTraffic =>
        if s.pending != [] {
          SendPendingCarries(s.(maySend := true));
        }
        PrefixInOrder(Outgoing(s), Outgoing(s'));
      case KeyUpdate(_) => PrefixInOrder(Outgoing(s), Outgoing(s'));
      case SetEncrypter(_) =>
      case SendMessage(typ, payload) =>
        SendAllFrame(s, typ, Fragments(payload, s.maxFrag));
        assert s'.wire == s.wire + s'.wire[|s.wire|..];
        PartInOrder(s.wire, s'.wire[|s.wire|..], Queue(s.queued));
    }
  }

  lemma {:induction false} RunRepairsNothing(s: Sender, ops: seq<Op>)
    requires Settled(s) && Run(s, ops).Some? && InOrder(Outgoing(Run(s, ops).value))
    ensures InOrder(Outgoing(s))
    decreases |ops|
  {
    if ops != [] {
      StepSettles(s, ops[0]);
      RunRepairsNothing(Step(s, ops[0]), ops[1..]);
      StepRepairsNothing(s, ops[0]);
    }
  }

  /** A message sent directly keeps the order exactly when it is empty or nothing is queued. */
  lemma {:induction false} MessageOrderExactly(s: Sender, typ: MessageType, payload: seq<byte>)
    requires Ordered(s) && Enabled(s, SendMessage(typ, payload))
    ensures InOrder(Outgoing(Step(s, SendMessage(typ, payload)))) <==> s.queued.None? || payload == []
  {
    var fs := Fragments(payload, s.maxFrag);
    var s' := SendAll(s, typ, fs);
    if s.queued.None? {
      SendAllKeeps(s, typ, fs);
    } else if payload != [] {
      var q, r := s.queued.value, NewRecord(s, typ, fs[0]);
      var all := s'.wire + [q];
      SendAllFrame(s, typ, fs);
      SendAllFrame(SendOne(s, typ, fs[0]), typ, fs[1..]);
      assert s.encrypted[|s.wire|] == q;
      assert s.layer.marks[|s.wire|] == Marks(s.encrypted)[|s.wire|] == q.mark;
      assert q.mark.Before(r.mark);
      assert all[|s.wire|] == (s.wire + [r])[|s.wire|] == r;
      assert all[|s'.wire|] == q;
      assert Marks(all)[|s.wire|] == r.mark && Marks(all)[|s'.wire|] == q.mark;
    }
  }

  lemma {:induction false} RunOrderExactly(s: Sender, ops: seq<Op>)
    requires Settled(s) && Ordered(s) && Run(s, ops).Some?
    ensures InOrder(Outgoing(Run(s, ops).value)) <==> AllInTurn(s, ops)
    ensures AllInTurn(s, ops) ==> Ordered(Run(s, ops).value)
    decreases |ops|
  {
    if ops != [] {
      var s' := Step(s, ops[0]);
      StepSettles(s, ops[0]);
      if InTurn(s, ops[0]) {
        StepKeeps(s, ops[0]);
        RunOrderExactly(s', ops[1..]);
      } else {
        MessageOrderExactly(s, ops[0].typ, ops[0].payload);
        if InOrder(Outgoing(Run(s, ops).value)) {
          RunRepairsNothing(s', ops[1..]);
        }
      }
    }
  }

  /**
    In every run the wire, with the queued key update behind it, is strictly increasing in key
    epoch and sequence number exactly when every message that is not empty was sent while no key
    update was queued.  It is then exactly what was encrypted.
   */
  lemma {:induction false} WireOrder(maxFrag: nat, ops: seq<Op>)
    requires Run(Fresh(maxFrag), ops).Some?
    ensures var s := Run(Fresh(maxFrag), ops).value;
            && (InOrder(Outgoing(s)) <==> AllInTurn(Fresh(maxFrag), ops))
            && (AllInTurn(Fresh(maxFrag), ops) ==> Outgoing(s) == s.encrypted)
  {
    RunOrderExactly(Fresh(maxFrag), ops);
  }

  /** An alert sent while a key update is queued overtakes it. */
  lemma {:induction false} WireOrderFails(a: Encrypter, b: Encrypter)
    ensures var ops := [SetEncrypter(a), StartTraffic, KeyUpdate(b), SendMessage(Alert, ILLEGAL_PARAMETER)];
            Run(Fresh(100), ops).Some? && !InOrder(Outgoing(Run(Fresh(100), ops).value))
  {
    var o1, o2, o3, o4 := SetEncrypter(a), StartTraffic, KeyUpdate(b), SendMessage(Alert, ILLEGAL_PARAMETER);
    var s0 := Fresh(100);
    var s1 := Step(s0, o1);
    var s2 := Step(s1, o2);
    var s3 := Step(s2, o3);
    assert |Fragments(ILLEGAL_PARAMETER, 100)| == 1;
    assert Enabled(s3, o4) && s3.queued.Some?;
    assert !AllInTurn(s3, [o4]);
    assert [o1, o2, o3, o4][1..] == [o2, o3, o4] && [o2, o3, o4][1..] == [o3, o4] && [o3, o4][1..] == [o4];
    assert Run(s3, [o4]).Some?;
    assert Run(s2, [o3, o4]) == Run(s3, [o4]) && !AllInTurn(s2, [o3, o4]);
    assert Run(s1, [o2, o3, o4]) == Run(s3, [o4]) && !AllInTurn(s1, [o2, o3, o4]);
    assert Run(s0, [o1, o2, o3, o4]) == Run(s3, [o4]) && !AllInTurn(s0, [o1, o2, o3, o4]);
    WireOrder(100, [o1, o2, o3, o4]);
  }

  // -----------------------------------------------------------------------------------------
  // In order or not, nothing is lost and no nonce is reused
  // -----------------------------------------------------------------------------------------

  /** A record names the encrypter that was installed when it was made. */
  ghost predicate SealedBy(l: Layer, r: Record) {
    r.mark.epoch < |l.installed| && r.encrypter == l.installed[r.mark.epoch]
  }

  /** Everything encrypted is on the wire or queued, exactly once, and is marked as the layer counts. */
  ghost predicate Accounted(s: Sender) {
    && LayerInv(s.layer)
    && Marks(s.encrypted) == s.layer.marks
    && (forall i :: 0 <= i < |s.encrypted| ==> SealedBy(s.layer, s.encrypted[i]))
    && multiset(Outgoing(s)) == multiset(s.encrypted)
  }

  lemma {:induction false} SendOneAccounts(s: Sender, typ: ContentType, plain: seq<byte>)
    requires Accounted(s) && Room(s, 1)
    ensures Accounted(SendOne(s, typ, plain))
  {
    var s', r := SendOne(s, typ, plain), NewRecord(s, typ, plain);
    assert Some(s'.layer) == StepLayer(s.layer, Encrypt);
    assert Marks(s'.encrypted) == s'.layer.marks;
    assert multiset(Outgoing(s')) == multiset(Outgoing(s)) + multiset{r};
  }

  lemma {:induction false} SendAllAccounts(s: Sender, typ: ContentType, plains: seq<seq<byte>>)
    requires Accounted(s) && Room(s, |plains|)
    ensures Accounted(SendAll(s, typ, plains))
    decreases |plains|
  {
    if plains != [] {
      SendOneAccounts(s, typ, plains[0]);
      SendAllAccounts(SendOne(s, typ, plains[0]), typ, plains[1..]);
    }
  }

  lemma {:induction false} SendPendingAccounts(s: Sender)
    requires Accounted(s) && s.maxFrag > 0 && Room(s, FragmentCount(s.pending, s.maxFrag))
    ensures Accounted(SendPending(s))
    decreases |s.pending|
  {
    if s.pending != [] {
      var t := s.(pending := s.pending[1..]);
      var fs := Fragments(s.pending[0], s.maxFrag);
      SendAllAccounts(t, ApplicationData, fs);
      SendAllCarries(t, ApplicationData, fs);
      SendPendingAccounts(SendAll(t, ApplicationData, fs));
    }
  }

  lemma {:induction false} KeyUpdateAccounts(s: Sender, next: Encrypter)
    requires Accounted(s) && Enabled(s, KeyUpdate(next))
    ensures Accounted(Step(s, KeyUpdate(next)))
  {
    if s.queued.None? {
      var s', r := Step(s, KeyUpdate(next)), NewRecord(s, Handshake, KEY_UPDATE_NOTIFY);
      var l := Encrypted(s.layer);
      assert LayerInv(l) by { assert Some(l) == StepLayer(s.layer, Encrypt); }
      assert Some(s'.layer) == StepLayer(l, Set(next));
      assert Marks(s'.encrypted) == s'.layer.marks;
      assert Outgoing(s') == Outgoing(s) + [r];
    }
  }

  lemma {:induction false} StepAccounts(s: Sender, op: Op)
    requires Accounted(s) && Enabled(s, op)
    ensures Accounted(Step(s, op))
  {
    match op {
      case Write(data, taken) =>
        SendQueuedKeeps(s);
        var t := SendQueued(s).(accepted := s.accepted + data[..taken]);
        assert Outgoing(t) == Outgoing(s);
        if s.maySend && data != [] {
          SendAllAccounts(t, ApplicationData, Fragments(data[..taken], s.maxFrag));
        }
      case StartTraffic =>
        if s.pending != [] {
          SendPendingAccounts(s.(maySend := true));
        }
      case KeyUpdate(next) => KeyUpdateAccounts(s, next);
      case SetEncrypter(first) => assert Some(Step(s, op).layer) == StepLayer(s.layer, Set(first));
      case SendMessage(typ, payload) => SendAllAccounts(s, typ, Fragments(payload, s.maxFrag));
    }
  }

  lemma {:induction false} RunAccounts(s: Sender, ops: seq<Op>)
    requires Accounted(s) && Run(s, ops).Some?
    ensures Accounted(Run(s, ops).value)
    decreases |ops|
  {
    if ops != [] {
      StepAccounts(s, ops[0]);
      RunAccounts(Step(s, ops[0]), ops[1..]);
    }
  }

  /** In every run the wire and the queue hold exactly what was encrypted, each record once. */
  lemma {:induction false} NothingIsLost(maxFrag: nat, ops: seq<Op>)
    requires Run(Fresh(maxFrag), ops).Some?
    ensures var s := Run(Fresh(maxFrag), ops).value;
            multiset(Outgoing(s)) == multiset(s.encrypted) && Increasing(Marks(s.encrypted))
  {
    RunAccounts(Fresh(maxFrag), ops);
  }

  function NonceFor(r: Record): seq<byte>
    requires |r.encrypter.iv| == NONCE_LEN
  {
    NonceBytes(r.encrypter.iv, r.mark.seqNo)
  }

  /** In every run that installs a fresh key each time, no two records share key and nonce. */
  lemma {:induction false} RecordNoncesAreUnique(maxFrag: nat, ops: seq<Op>, i: nat, j: nat)
    requires Run(Fresh(maxFrag), ops).Some? && FreshKeys(Run(Fresh(maxFrag), ops).value.layer.installed)
    requires i < j < |Run(Fresh(maxFrag), ops).value.encrypted|
    ensures var rs := Run(Fresh(maxFrag), ops).value.encrypted;
            && |rs[i].encrypter.iv| == |rs[j].encrypter.iv| == NONCE_LEN
            && !(rs[i].encrypter.key == rs[j].encrypter.key && NonceFor(rs[i]) == NonceFor(rs[j]))
  {
    RunAccounts(Fresh(maxFrag), ops);
    var s := Run(Fresh(maxFrag), ops).value;
    assert SealedBy(s.layer, s.encrypted[i]) && SealedBy(s.layer, s.encrypted[j]);
    assert s.layer.marks[i] == s.encrypted[i].mark && s.layer.marks[j] == s.encrypted[j].mark;
    LayerNoncesAreUnique(s.layer, i, j);
  }

  // -----------------------------------------------------------------------------------------
  // Messages and key updates
  // -----------------------------------------------------------------------------------------

  lemma {:induction false} SendAllRecords(s: Sender, typ: ContentType, plains: seq<seq<byte>>, t: ContentType)
    requires Room(s, |plains|)
    ensures DataOf(SendAll(s, typ, plains).encrypted, t)
         == DataOf(s.encrypted, t) + if typ == t then Flatten(plains) else []
    decreases |plains|
  {
    if plains != [] {
      DataSnoc(s.encrypted, NewRecord(s, typ, plains[0]), t);
      SendAllRecords(SendOne(s, typ, plains[0]), typ, plains[1..], t);
      if typ == t {
        Assoc(DataOf(s.encrypted, t), plains[0], Flatten(plains[1..]));
      }
    }
  }

  lemma {:induction false} SendPendingRecords(s: Sender, t: MessageType)
    requires s.maxFrag > 0 && Room(s, FragmentCount(s.pending, s.maxFrag))
    ensures DataOf(SendPending(s).encrypted, t) == DataOf(s.encrypted, t)
    decreases |s.pending|
  {
    if s.pending != [] {
      var u := s.(pending := s.pending[1..]);
      var fs := Fragments(s.pending[0], s.maxFrag);
      SendAllCarries(u, ApplicationData, fs);
      SendAllRecords(u, ApplicationData, fs, t);
      SendPendingRecords(SendAll(u, ApplicationData, fs), t);
    }
  }

  /** The bytes of one message type that a call sends: its payload, or a key-update message. */
  function MessageOf(s: Sender, op: Op, t: MessageType): seq<byte> {
    match op
    case SendMessage(typ, payload) => if typ == t then payload else []
    case KeyUpdate(_) => if t == Handshake && s.queued == None then [24, 0, 0, 1, 0] else []
    case _ => []
  }

  lemma {:induction false} StepSends(s: Sender, op: Op, t: MessageType)
    requires Enabled(s, op)
    ensures DataOf(Step(s, op).encrypted, t) == DataOf(s.encrypted, t) + MessageOf(s, op, t)
  {
    match op {
      case Write(data, taken) =>
        if s.maySend && data != [] {
          var u := SendQueued(s).(accepted := s.accepted + data[..taken]);
          SendAllRecords(u, ApplicationData, Fragments(data[..taken], s.maxFrag), t);
        }
      case StartTraffic =>
        if s.pending != [] {
          SendPendingRecords(s.(maySend := true), t);
        }
      case KeyUpdate(_) => DataSnoc(s.encrypted, NewRecord(s, Handshake, KEY_UPDATE_NOTIFY), t);
      case SetEncrypter(_) =>
      case SendMessage(typ, payload) =>
        SendAllRecords(s, typ, Fragments(payload, s.maxFrag), t);
        FragmentsJoin(payload, s.maxFrag);
    }
  }

  function MessageBytes(s: Sender, ops: seq<Op>, t: MessageType): seq<byte>
    decreases |ops|
  {
    if ops == [] || !Enabled(s, ops[0]) then []
    else MessageOf(s, ops[0], t) + MessageBytes(Step(s, ops[0]), ops[1..], t)
  }

  lemma {:induction false} RunSends(s: Sender, ops: seq<Op>, t: MessageType)
    requires Run(s, ops).Some?
    ensures DataOf(Run(s, ops).value.encrypted, t) == DataOf(s.encrypted, t) + MessageBytes(s, ops, t)
    decreases |ops|
  {
    if ops != [] {
      StepSends(s, ops[0], t);
      RunSends(Step(s, ops[0]), ops[1..], t);
      Assoc(DataOf(s.encrypted, t), MessageOf(s, ops[0], t), MessageBytes(Step(s, ops[0]), ops[1..], t));
    }
  }

  /** In every run, each type's messages are encrypted whole, in the order in which they were sent. */
  lemma {:induction false} MessagesAreSent(maxFrag: nat, ops: seq<Op>, t: MessageType)
    requires Run(Fresh(maxFrag), ops).Some?
    ensures DataOf(Run(Fresh(maxFrag), ops).value.encrypted, t) == MessageBytes(Fresh(maxFrag), ops, t)
  {
    RunSends(Fresh(maxFrag), ops, t);
    assert [] + MessageBytes(Fresh(maxFrag), ops, t) == MessageBytes(Fresh(maxFrag), ops, t);
  }

  /** A key update is announced under the old key, and everything after it is sealed with the next. */
  lemma {:induction false} KeyUpdateChangesKey(s: Sender, next: Encrypter, typ: ContentType, plain: seq<byte>)
    requires Enabled(s, KeyUpdate(next)) && s.queued.None?
    ensures var s', old' := Step(s, KeyUpdate(next)), s.layer.installed[|s.layer.installed| - 1];
            && s'.queued.Some? && s'.queued.value.encrypter == old' && s'.queued.value.mark.seqNo == s.layer.writeSeq
            && s'.layer.installed == s.layer.installed + [next]
            && NewRecord(s', typ, plain).encrypter == next && NewRecord(s', typ, plain).mark.seqNo == 0
  {
  }

  /** A write puts a queued key update on the wire before its own records, even if it writes nothing. */
  lemma {:induction false} WriteFlushes(s: Sender, data: seq<byte>, taken: nat)
    requires Enabled(s, Write(data, taken))
    ensures Step(s, Write(data, taken)).queued == None && Outgoing(s) <= Step(s, Write(data, taken)).wire
  {
    SendQueuedKeeps(s);
    if s.maySend && data != [] {
      var u := SendQueued(s).(accepted := s.accepted + data[..taken]);
      SendAllFrame(u, ApplicationData, Fragments(data[..taken], s.maxFrag));
    }
  }

  // -----------------------------------------------------------------------------------------
  // The code
  // -----------------------------------------------------------------------------------------

  /** An encrypter: key and IV, sequence number, content type and plaintext to an encoded record. */
  type Sealer = (Encrypter, nat, ContentType, seq<byte>) -> seq<byte>

  function EncodeAll(seal: Sealer, rs: seq<Record>): seq<byte> {
    if rs == [] then []
    else EncodeAll(seal, rs[..|rs| - 1]) + Encode(seal, rs[|rs| - 1])
  }

  function Encode(seal: Sealer, r: Record): seq<byte> {
    seal(r.encrypter, r.mark.seqNo, r.typ, r.plain)
  }

  lemma {:induction false} EncodeAllSnoc(seal: Sealer, rs: seq<Record>, r: Record)
    ensures EncodeAll(seal, rs + [r]) == EncodeAll(seal, rs) + Encode(seal, r)
  {
    assert (rs + [r])[..|rs|] == rs;
  }

  lemma {:induction false} FragmentsMonotone(a: seq<byte>, b: seq<byte>, max: nat)
    requires max > 0 && |a| <= |b|
    ensures |Fragments(a, max)| <= |Fragments(b, max)|
    decreases |a|
  {
    if |a| > max {
      FragmentsMonotone(a[max..], b[max..], max);
    }
  }

  datatype KeyUpdateRequest = UpdateNotRequested | UpdateRequested | UnknownRequest

  class CommonState {
    const maxFrag: nat
    const seal: Sealer
    const recordLayer: RecordLayer
    const sendablePlaintext: ChunkVecBuffer
    const sendableTls: ChunkVecBuffer
    var maySendApplicationData: bool
    var queuedKeyUpdateMessage: Option<seq<byte>>
    ghost var queued: Option<Record>
    ghost var wire: seq<Record>
    ghost var encrypted: seq<Record>
    ghost var accepted: seq<byte>
    /** Bytes of the outgoing buffer already handed to the socket. */
    ghost var drained: seq<byte>

    ghost predicate Valid()
      reads this, recordLayer, sendablePlaintext, sendableTls
    {
      && maxFrag > 0 && sendablePlaintext != sendableTls
      && recordLayer.Valid() && sendablePlaintext.Valid() && sendableTls.Valid()
      && drained + sendableTls.Contents() == EncodeAll(seal, wire)
      && queuedKeyUpdateMessage == if queued.Some? then Some(Encode(seal, queued.value)) else None
    }

    ghost function State(): Sender
      reads this, recordLayer, sendablePlaintext
    {
      Sender(maxFrag, maySendApplicationData, recordLayer.State(), sendablePlaintext.chunks, queued, wire,
             encrypted, accepted)
    }

    constructor (seal: Sealer, maxFrag: nat, limit: Option<nat>)
      requires maxFrag > 0
      ensures Valid() && State() == Fresh(maxFrag)
      ensures fresh(recordLayer) && fresh(sendablePlaintext) && fresh(sendableTls)
    {
      this.seal, this.maxFrag := seal, maxFrag;
      recordLayer := new RecordLayer();
      sendablePlaintext := new ChunkVecBuffer(limit);
      sendableTls := new ChunkVecBuffer(limit);
      maySendApplicationData, queuedKeyUpdateMessage := false, None;
      queued, wire, encrypted, accepted, drained := None, [], [], [], [];
    }

    method QueueTlsMessage(bytes: seq<byte>, ghost r: Record)
      requires Valid() && bytes == Encode(seal, r)
      modifies this, sendableTls
      ensures Valid() && State() == old(State()).(wire := old(wire) + [r])
      ensures sendableTls.Contents() == old(sendableTls.Contents()) + bytes
      ensures sendableTls.limit == old(sendableTls.limit)
    {
      EncodeAllSnoc(seal, wire, r);
      Assoc(drained, sendableTls.Contents(), bytes);
      var _ := sendableTls.Append(bytes);
      wire := wire + [r];
    }

    /** At the soft limit the code would re-enter itself for ever, so that value is excluded. */
    method SendSingleFragment(typ: ContentType, plain: seq<byte>)
      requires Valid() && recordLayer.encryptState.Active? && recordLayer.writeSeq != SEQ_SOFT_LIMIT
      modifies this, recordLayer, sendableTls
      ensures Valid() && State() == SendOne(old(State()), typ, plain)
    {
      if recordLayer.writeSeq >= SEQ_HARD_LIMIT {
        return;
      }
      ghost var r := NewRecord(State(), typ, plain);
      var e, seqNo := recordLayer.EncryptOutgoing();
      encrypted := encrypted + [r];
      QueueTlsMessage(seal(e, seqNo, typ, plain), r);
    }

    method SendFragments(typ: ContentType, data: seq<byte>)
      requires Valid() && Room(State(), |Fragments(data, maxFrag)|)
      modifies this, recordLayer, sendableTls
      ensures Valid() && State() == SendAll(old(State()), typ, Fragments(data, maxFrag))
    {
      var iter := Fragments(data, maxFrag);
      ghost var target := SendAll(State(), typ, iter);
      while iter != []
        invariant Valid() && Room(State(), |iter|) && SendAll(State(), typ, iter) == target
        decreases |iter|
      {
        SendAllStep(State(), typ, iter);
        SendSingleFragment(typ, iter[0]);
        iter := iter[1..];
      }
    }

    method PerhapsWriteKeyUpdate()
      requires Valid()
      modifies this, sendableTls
      ensures Valid() && State() == SendQueued(old(State()))
      ensures |sendableTls.Contents()| == |old(sendableTls.Contents())| + |old(QueuedBytes())|
      ensures sendableTls.limit == old(sendableTls.limit)
    {
      match queuedKeyUpdateMessage
      case None =>
      case Some(message) =>
        ghost var r := queued.value;
        queuedKeyUpdateMessage, queued := None, None;
        QueueTlsMessage(message, r);
    }

    ghost function QueuedBytes(): seq<byte>
      reads this
    {
      if queuedKeyUpdateMessage.Some? then queuedKeyUpdateMessage.value else []
    }

    method SendPlainLimited(data: seq<byte>) returns (n: nat)
      requires Valid() && (maySendApplicationData && data != [] ==> Room(State(), |Fragments(data, maxFrag)|))
      modifies this, recordLayer, sendablePlaintext, sendableTls
      ensures Enabled(old(State()), Write(data, n))
      ensures Valid() && State() == SendPlain(old(State()), data, n)
      ensures n == if old(maySendApplicationData)
                   then Fitting(old(sendableTls.limit), |old(sendableTls.Contents())|, |data|)
                   else Fitting(old(sendablePlaintext.limit), |old(sendablePlaintext.Contents())|, |data|)
    {
      if !maySendApplicationData {
        n := sendablePlaintext.AppendLimitedCopy(data);
        accepted := accepted + data[..n];
        return;
      }
      if data == [] {
        return 0;
      }
      n := sendableTls.ApplyLimit(|data|);
      FragmentsMonotone(data[..n], data, maxFrag);
      accepted := accepted + data[..n];
      SendFragments(ApplicationData, data[..n]);
    }

    /** Writes application data; returns how much of it was accepted. */
    method SendSomePlaintext(data: seq<byte>) returns (n: nat)
      requires Valid() && (maySendApplicationData && data != [] ==> Room(State(), |Fragments(data, maxFrag)|))
      modifies this, recordLayer, sendablePlaintext, sendableTls
      ensures Enabled(old(State()), Write(data, n))
      ensures Valid() && State() == Step(old(State()), Write(data, n))
      ensures n == if old(maySendApplicationData)
                   then Fitting(old(sendableTls.limit), |old(sendableTls.Contents())| + |old(QueuedBytes())|, |data|)
                   else Fitting(old(sendablePlaintext.limit), |old(sendablePlaintext.Contents())|, |data|)
    {
      PerhapsWriteKeyUpdate();
      n := SendPlainLimited(data);
    }

    method StartOutgoingTraffic()
      requires Valid() && Enabled(State(), StartTraffic)
      modifies this, recordLayer, sendablePlaintext, sendableTls
      ensures Valid() && State() == Step(old(State()), StartTraffic)
    {
      maySendApplicationData := true;
      ghost var target := Step(old(State()), StartTraffic);
      while sendablePlaintext.chunks != []
        invariant Valid() && maySendApplicationData
        invariant sendablePlaintext.chunks != [] ==>
                    Room(State(), FragmentCount(sendablePlaintext.chunks, maxFrag))
        invariant target == if sendablePlaintext.chunks == [] then State() else SendPending(State())
        decreases |sendablePlaintext.chunks|
      {
        ghost var s := State();
        var chunk := sendablePlaintext.Pop();
        assert s.pending[0] == chunk.value && s.pending[1..] == sendablePlaintext.chunks;
        SendPendingAfterOne(s);
        SendAllFrame(State(), ApplicationData, Fragments(chunk.value, maxFrag));
        SendAllCount(State(), ApplicationData, Fragments(chunk.value, maxFrag));
        SendFragments(ApplicationData, chunk.value);
      }
    }

    /** Whether a received key update makes us update ours; an unknown request gets a fatal alert. */
    method ShouldUpdateKey(request: KeyUpdateRequest) returns (r: Option<bool>)
      requires Valid()
      requires request.UnknownRequest? ==> Enabled(State(), SendMessage(Alert, ILLEGAL_PARAMETER))
      modifies this, recordLayer, sendableTls
      ensures Valid()
      ensures r == match request
                   case UpdateNotRequested => Some(false)
                   case UpdateRequested => Some(old(queued).None?)
                   case UnknownRequest => None
      ensures State() == if r.None? then Step(old(State()), SendMessage(Alert, [2, 47])) else old(State())
    {
      match request
      case UpdateNotRequested => r := Some(false);
      case UpdateRequested => r := Some(queuedKeyUpdateMessage.None?);
      case UnknownRequest =>
        SendMsgEncrypt(Alert, ILLEGAL_PARAMETER);
        r := None;
    }

    /** Encrypts the notification under the old key, queues it and changes to the next key. */
    method UpdateEncrypterAndNotify(next: Encrypter)
      requires Valid() && Enabled(State(), KeyUpdate(next)) && queued.None?
      modifies this, recordLayer
      ensures Valid() && State() == Step(old(State()), KeyUpdate(next))
    {
      ghost var r := NewRecord(State(), Handshake, KEY_UPDATE_NOTIFY);
      var e, seqNo := recordLayer.EncryptOutgoing();
      encrypted := encrypted + [r];
      queued := Some(r);
      queuedKeyUpdateMessage := Some(seal(e, seqNo, Handshake, KEY_UPDATE_NOTIFY));
      recordLayer.SetMessageEncrypter(next);
    }

    /** The step a received key update causes, if any. */
    method HandleKeyUpdate(request: KeyUpdateRequest, next: Encrypter) returns (ok: bool)
      requires Valid()
      requires request.UpdateRequested? ==> Enabled(State(), KeyUpdate(next))
      requires request.UnknownRequest? ==> Enabled(State(), SendMessage(Alert, ILLEGAL_PARAMETER))
      modifies this, recordLayer, sendableTls
      ensures Valid() && ok == !request.UnknownRequest?
      ensures State() == match request
                         case UpdateNotRequested => old(State())
                         case UpdateRequested => Step(old(State()), KeyUpdate(next))
                         case UnknownRequest => Step(old(State()), SendMessage(Alert, [2, 47]))
    {
      var update := ShouldUpdateKey(request);
      if update == Some(true) {
        UpdateEncrypterAndNotify(next);
      }
      ok := update.Some?;
    }

    method SendMsgEncrypt(typ: MessageType, payload: seq<byte>)
      requires Valid() && Enabled(State(), SendMessage(typ, payload))
      modifies this, recordLayer, sendableTls
      ensures Valid() && State() == Step(old(State()), SendMessage(typ, payload))
    {
      SendFragments(typ, payload);
    }

    /** Hands outgoing bytes to the socket: what has left is a prefix of the encoded records. */
    method WriteTls(writer: seq<seq<byte>> -> Option<nat>) returns (r: Option<nat>)
      requires Valid()
      requires forall bufs :: writer(bufs).Some? ==> writer(bufs).value <= |Flatten(bufs)|
      modifies this, sendableTls
      ensures Valid() && State() == old(State())
      ensures old(drained) <= drained <= EncodeAll(seal, wire)
      ensures |drained| == |old(drained)| + if r.Some? then r.value else 0
    {
      ghost var before := sendableTls.Contents();
      r := sendableTls.WriteTo(writer);
      if r.Some? {
        assert before == before[..r.value] + before[r.value..];
        Assoc(drained, before[..r.value], before[r.value..]);
        drained := drained + before[..r.value];
      }
    }
  }

  lemma {:induction false} SendAllStep(s: Sender, typ: ContentType, plains: seq<seq<byte>>)
    requires plains != [] && Room(s, |plains|)
    ensures var s' := SendOne(s, typ, plains[0]);
            Room(s', |plains| - 1) && SendAll(s', typ, plains[1..]) == SendAll(s, typ, plains)
  {
  }

  lemma {:induction false} SendAllCount(s: Sender, typ: ContentType, plains: seq<seq<byte>>)
    requires Room(s, |plains|)
    ensures SendAll(s, typ, plains).layer.writeSeq == s.layer.writeSeq + |plains|
    decreases |plains|
  {
    if plains != [] {
      SendAllCount(SendOne(s, typ, plains[0]), typ, plains[1..]);
    }
  }
}
