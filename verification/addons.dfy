/**
  VLESS request addons: a scan of a protobuf message for its `Flow` string, with base-128
  varints for lengths and skipped numbers.  Whether bytes are valid UTF-8 is a parameter.
 */
module VlessAddons {
  import opened Bytes

  // -----------------------------------------------------------------------------------------
  // Varints
  // -----------------------------------------------------------------------------------------

  const MAX_GROUPS: nat := 10

  datatype Varint = Varint(value: nat, consumed: nat)

  /** Seven-bit groups, lowest first, until a byte below 128; `None` if `n` bytes do not end them. */
  function Groups(data: seq<byte>, n: nat): (r: Option<Varint>)
    ensures r.Some? ==> 0 < r.value.consumed <= |data|
  {
    if n == 0 || data == [] then None
    else if data[0] < 128 then Some(Varint(data[0], 1))
    else match Groups(data[1..], n - 1)
         case None => None
         case Some(v) => Some(Varint(data[0] % 128 + 128 * v.value, v.consumed + 1))
  }

  /** At most ten groups, in a 64-bit word. */
  function VarintOf(data: seq<byte>): (r: Option<Varint>)
    ensures r.Some? ==> 0 < r.value.consumed <= |data|
  {
    match Groups(data, Min(MAX_GROUPS, |data|))
    case None => None
    case Some(v) => Some(Varint(v.value % U64_END, v.consumed))
  }

  function Pow128(i: nat): (p: nat)
    ensures p > 0
  {
    if i == 0 then 1 else 128 * Pow128(i - 1)
  }

  lemma {:induction false} NinthPower()
    ensures Pow128(9) == 0x8000_0000_0000_0000 && Pow128(MAX_GROUPS) >= U64_END
  {
    assert Pow128(3) == 0x20_0000;
    assert Pow128(6) == 0x20_0000 * 0x20_0000;
  }

  lemma {:induction false} PowMonotone(i: nat, j: nat)
    requires i <= j
    ensures Pow128(i) <= Pow128(j)
    decreases j
  {
    if i < j {
      PowMonotone(i, j - 1);
    }
  }

  /**
    Shifts each group into place in a 64-bit word, where bits above the word are lost.  Groups
    occupy disjoint bits, so the code's `or` is written as a sum.
   */
  method ReadVarint(data: seq<byte>) returns (r: Option<Varint>)
    ensures r == VarintOf(data)
  {
    var val: nat, scale: nat := 0, 1;
    var i, end := 0, Min(MAX_GROUPS, |data|);
    ghost var all := Groups(data, end);
    assert data[0..] == data;
    while i < end
      invariant 0 <= i <= end && scale == Pow128(i) && (i < MAX_GROUPS ==> val < scale)
      invariant all == Above(val, scale, i, Groups(data[i..], end - i))
    {
      DropSlice(data, i, 1, 1);
      val := AddGroup(data[i], val, scale, data[i..], end - i, i);
      if data[i] < 128 {
        return Some(Varint(val, i + 1));
      }
      scale := scale * 128;
      i := i + 1;
    }
    r := None;
  }

  /** One round: the byte `b`, in front of what is left to read, joins the value. */
  method AddGroup(b: byte, val: nat, scale: nat, ghost d: seq<byte>, ghost n: nat, ghost i: nat) returns (next: nat)
    requires d != [] && d[0] == b && n > 0 && i + n <= MAX_GROUPS && scale == Pow128(i) && val < scale
    ensures var all := Above(val, scale, i, Groups(d, n));
            if b < 128 then all.Some? && all.value.consumed == i + 1 && all.value.value % U64_END == next
            else all == Above(next, scale * 128, i + 1, Groups(d[1..], n - 1)) && (i < 9 ==> next < scale * 128)
  {
    RoundOfReading(d, n, val, scale, i);
    next := val + b % 128 * scale % U64_END;
  }

  /** Groups read at position `i`, added to the value below them. */
  function Above(val: nat, scale: nat, i: nat, rest: Option<Varint>): Option<Varint> {
    if rest.None? then None else Some(Varint(val + scale * rest.value.value, i + rest.value.consumed))
  }

  lemma {:induction false} GroupsStep(d: seq<byte>, n: nat, val: nat, scale: nat, i: nat)
    requires d != [] && n > 0
    ensures Above(val, scale, i, Groups(d, n))
         == if d[0] < 128 then Some(Varint(val + d[0] % 128 * scale, i + 1))
            else Above(val + d[0] % 128 * scale, scale * 128, i + 1, Groups(d[1..], n - 1))
  {
    var rest := Groups(d[1..], n - 1);
    if d[0] >= 128 && rest.Some? {
      ShiftGroup(scale, d[0] % 128, rest.value.value);
    }
  }

  lemma {:induction false} RoundOfReading(d: seq<byte>, n: nat, val: nat, scale: nat, i: nat)
    requires d != [] && n > 0 && i + n <= MAX_GROUPS && scale == Pow128(i) && val < scale
    ensures var next, all := val + d[0] % 128 * scale % U64_END, Above(val, scale, i, Groups(d, n));
            if d[0] < 128 then all.Some? && all.value.consumed == i + 1 && all.value.value % U64_END == next
            else all == Above(next, scale * 128, i + 1, Groups(d[1..], n - 1)) && (i < 9 ==> next < scale * 128)
  {
    GroupsStep(d, n, val, scale, i);
    NextGroup(val, scale, d[0] % 128, i);
  }

  /** Below the tenth group nothing is lost; the tenth leaves one bit, the top one of the word. */
  lemma {:induction false} NextGroup(val: nat, scale: nat, group: nat, i: nat)
    requires i < MAX_GROUPS && scale == Pow128(i) && val < scale && group < 128
    ensures val + group * scale % U64_END == (val + group * scale) % U64_END
    ensures i < 9 ==> group * scale % U64_END == group * scale && val + group * scale < 128 * scale
  {
    if i < 9 {
      PowMonotone(i + 1, 9);
      NinthPower();
      GroupFits(val, scale, group);
    } else {
      NinthPower();
      TopBit(val, group);
    }
  }

  lemma {:induction false} GroupFits(val: nat, scale: nat, group: nat)
    requires val < scale && group < 128 && 128 * scale < U64_END
    ensures group * scale < U64_END && val + group * scale < 128 * scale
  {
    assert group * scale <= 127 * scale;
  }

  lemma {:induction false} TopBit(val: nat, group: nat)
    requires val < 0x8000_0000_0000_0000 && group < 128
    ensures var x := group * 0x8000_0000_0000_0000; val + x % U64_END == (val + x) % U64_END
  {
    var x := group * 0x8000_0000_0000_0000;
    assert x == U64_END * (group / 2) + (group % 2) * 0x8000_0000_0000_0000;
  }

  lemma {:induction false} ShiftGroup(scale: nat, group: nat, rest: nat)
    ensures scale * (group + 128 * rest) == group * scale + scale * 128 * rest
  {
  }

  /** The protobuf encoding: seven bits a byte, lowest first, the high bit on all but the last. */
  function EncodeVarint(n: nat): seq<byte> {
    if n < 128 then [n] else [128 + n % 128] + EncodeVarint(n / 128)
  }

  /** `read_varint` undoes the encoding of every 64-bit number and stops right behind it. */
  lemma {:induction false} VarintInverse(n: nat, rest: seq<byte>)
    requires n < U64_END
    ensures VarintOf(EncodeVarint(n) + rest) == Some(Varint(n, |EncodeVarint(n)|))
  {
    NinthPower();
    EncodedLength(n, MAX_GROUPS);
    GroupsInverse(n, Min(MAX_GROUPS, |EncodeVarint(n) + rest|), rest);
  }

  /** No number is read exactly when none of the first ten bytes, or of all there are, ends it. */
  lemma {:induction false} UnendedVarint(data: seq<byte>)
    ensures VarintOf(data) == None <==> forall i :: 0 <= i < |data| && i < 10 ==> data[i] >= 128
  {
    UnendedGroups(data, Min(MAX_GROUPS, |data|));
  }

  lemma {:induction false} UnendedGroups(data: seq<byte>, n: nat)
    requires n <= |data|
    ensures Groups(data, n) == None <==> forall i :: 0 <= i < n ==> data[i] >= 128
    decreases n
  {
    if n > 0 {
      UnendedGroups(data[1..], n - 1);
      assert forall i :: 1 <= i < n ==> data[i] == data[1..][i - 1];
      assert forall i :: 0 <= i < n - 1 ==> data[1..][i] == data[i + 1];
    }
  }

  lemma {:induction false} EncodedLength(n: nat, k: nat)
    requires k > 0 && n < Pow128(k)
    ensures |EncodeVarint(n)| <= k
    decreases n
  {
    if n >= 128 {
      EncodedLength(n / 128, k - 1);
    }
  }

  lemma {:induction false} GroupsInverse(n: nat, k: nat, rest: seq<byte>)
    requires |EncodeVarint(n)| <= k
    ensures Groups(EncodeVarint(n) + rest, k) == Some(Varint(n, |EncodeVarint(n)|))
    decreases n
  {
    if n >= 128 {
      GroupsInverse(n / 128, k - 1, rest);
      var data := EncodeVarint(n) + rest;
      assert data[1..] == EncodeVarint(n / 128) + rest;
      assert data[0] % 128 == n % 128;
    }
  }

  // -----------------------------------------------------------------------------------------
  // Fields
  // -----------------------------------------------------------------------------------------

  /** Where a field ends, and the flow after it given the flow before it. */
  datatype Read = Read(next: nat, flow: seq<byte>)

  /** Reads the field at the start of `data`; `None` if it cannot be read. */
  function ReadField(utf8: Utf8, data: seq<byte>, flow: seq<byte>): (r: Option<Read>)
    requires data != []
    ensures r.Some? ==> 0 < r.value.next <= |data|
  {
    FieldWith(utf8, data, VarintOf(data[1..]), flow)
  }

  /** The field whose tag is the first byte and whose number, or length, follows it. */
  function FieldWith(utf8: Utf8, data: seq<byte>, number: Option<Varint>, flow: seq<byte>): (r: Option<Read>)
    requires data != [] && (number.Some? ==> 0 < number.value.consumed <= |data| - 1)
    ensures r.Some? ==> 0 < r.value.next <= |data|
  {
    var field, wire := data[0] / 8, data[0] % 8;
    if (wire != 0 && wire != 2) || number.None? then None
    else
      var start := 1 + number.value.consumed;
      var end := if wire == 0 then start else start + number.value.value;
      if end > |data| then None
      else Some(Read(end, if wire == 2 && field == 1 && utf8(data[start..end]) then data[start..end] else flow))
  }

  /** The flow found in `data`, given the flow found before it; an unreadable field ends the scan. */
  function Scan(utf8: Utf8, data: seq<byte>, flow: seq<byte>): seq<byte>
    decreases |data|
  {
    if data == [] then flow
    else match ReadField(utf8, data, flow)
         case None => flow
         case Some(r) => Scan(utf8, data[r.next..], r.flow)
  }

  method Parse(utf8: Utf8, data: seq<byte>) returns (flow: seq<byte>)
    ensures flow == Scan(utf8, data, [])
  {
    flow := [];
    var i := 0;
    assert data[0..] == data;
    while i < |data|
      invariant 0 <= i <= |data|
      invariant Scan(utf8, data[i..], flow) == Scan(utf8, data, [])
      decreases |data| - i
    {
      var next, newFlow := ParseField(utf8, data, i, flow);
      ScanStep(utf8, data[i..], flow);
      if next.None? {
        break;
      }
      DropSlice(data, i, next.value - i, next.value - i);
      i, flow := next.value, newFlow;
    }
  }

  lemma {:induction false} ScanStep(utf8: Utf8, d: seq<byte>, flow: seq<byte>)
    requires d != []
    ensures Scan(utf8, d, flow) == match ReadField(utf8, d, flow)
                                   case None => flow
                                   case Some(r) => Scan(utf8, d[r.next..], r.flow)
  {
  }

  /** A field in the middle of a message, by absolute positions. */
  lemma {:induction false} FieldAt(utf8: Utf8, data: seq<byte>, i: nat, number: Option<Varint>, flow: seq<byte>)
    requires i < |data| && (number.Some? ==> 0 < number.value.consumed <= |data| - i - 1)
    ensures var r := FieldWith(utf8, data[i..], number, flow);
            var field, wire := data[i] / 8, data[i] % 8;
            if (wire != 0 && wire != 2) || number.None? then r.None?
            else
              var start := i + 1 + number.value.consumed;
              var end := if wire == 0 then start else start + number.value.value;
              if end > |data| then r.None?
              else
                var text := wire == 2 && field == 1 && utf8(data[start..end]);
                r == Some(Read(end - i, if text then data[start..end] else flow))
  {
    if number.Some? {
      var start := i + 1 + number.value.consumed;
      var end := if data[i] % 8 == 0 then start else start + number.value.value;
      if end <= |data| {
        DropSlice(data, i, start - i, end - i);
      }
    }
  }

  /** One round of the loop: the position behind the field at `i`, or `None` to stop. */
  method ParseField(utf8: Utf8, data: seq<byte>, i: nat, flow: seq<byte>)
    returns (next: Option<nat>, newFlow: seq<byte>)
    requires i < |data|
    ensures var r := ReadField(utf8, data[i..], flow);
            && (next.None? <==> r.None?)
            && (r.Some? ==> next == Some(i + r.value.next) && newFlow == r.value.flow)
  {
    newFlow := flow;
    var field, wire := data[i] / 8, data[i] % 8;
    DropSlice(data, i, 1, 1);
    if wire != 0 && wire != 2 {
      return None, flow;
    }
    var number := ReadVarint(data[i + 1..]);
    FieldAt(utf8, data, i, number, flow);
    if number.None? {
      return None, flow;
    }
    var start := i + 1 + number.value.consumed;
    if wire == 0 {
      return Some(start), flow;
    }
    var end := start + number.value.value;
    if end > |data| {
      return None, flow;
    }
    if field == 1 && utf8(data[start..end]) {
      newFlow := data[start..end];
    }
    next := Some(end);
  }

  /** A field with a one-byte tag: a number to skip, or bytes. */
  datatype Field = Number(field: nat, value: nat) | Text(field: nat, bytes: seq<byte>) {
    ghost predicate WellFormed() {
      field < 32 && match this case Number(_, v) => v < U64_END case Text(_, b) => |b| < U64_END
    }

    function Encoding(): seq<byte>
      requires field < 32
    {
      match this
      case Number(f, v) => [8 * f] + EncodeVarint(v)
      case Text(f, b) => [8 * f + 2] + EncodeVarint(|b|) + b
    }
  }

  function EncodeFields(fs: seq<Field>): seq<byte>
    requires forall i :: 0 <= i < |fs| ==> fs[i].WellFormed()
  {
    if fs == [] then [] else assert fs[0].WellFormed(); fs[0].Encoding() + EncodeFields(fs[1..])
  }

  /** The last `Flow` field that is valid UTF-8, or `otherwise`. */
  function LastFlow(utf8: Utf8, fs: seq<Field>, otherwise: seq<byte>): seq<byte> {
    if fs == [] then otherwise
    else
      var f := fs[|fs| - 1];
      if f.Text? && f.field == 1 && utf8(f.bytes) then f.bytes else LastFlow(utf8, fs[..|fs| - 1], otherwise)
  }

  lemma {:induction false} LastFlowCons(utf8: Utf8, f: Field, fs: seq<Field>, otherwise: seq<byte>)
    ensures LastFlow(utf8, [f] + fs, otherwise) == LastFlow(utf8, fs, LastFlow(utf8, [f], otherwise))
    decreases |fs|
  {
    if fs == [] {
      assert [f] + fs == [f];
    } else {
      assert ([f] + fs)[..|fs|] == [f] + fs[..|fs| - 1];
      LastFlowCons(utf8, f, fs[..|fs| - 1], otherwise);
    }
  }

  lemma {:induction false} ReadNumber(utf8: Utf8, tag: byte, e: seq<byte>, rest: seq<byte>, flow: seq<byte>)
    requires tag % 8 == 0 && VarintOf(e + rest).Some? && VarintOf(e + rest).value.consumed == |e|
    ensures ReadField(utf8, [tag] + e + rest, flow) == Some(Read(1 + |e|, flow))
  {
    assert ([tag] + e + rest)[1..] == e + rest;
  }

  lemma {:induction false} ReadText(utf8: Utf8, tag: byte, e: seq<byte>, b: seq<byte>, rest: seq<byte>, flow: seq<byte>)
    requires tag % 8 == 2 && VarintOf(e + (b + rest)) == Some(Varint(|b|, |e|))
    ensures ReadField(utf8, [tag] + e + b + rest, flow)
         == Some(Read(1 + |e| + |b|, if tag / 8 == 1 && utf8(b) then b else flow))
  {
    var data := [tag] + e + b + rest;
    assert data[1..] == e + (b + rest);
    assert data[1 + |e|..1 + |e| + |b|] == b;
  }

  /** A well-formed field is read whole, whatever follows it. */
  lemma {:induction false} FieldInverse(utf8: Utf8, f: Field, rest: seq<byte>, flow: seq<byte>)
    requires f.WellFormed()
    ensures ReadField(utf8, f.Encoding() + rest, flow) == Some(Read(|f.Encoding()|, LastFlow(utf8, [f], flow)))
  {
    assert [f][..0] == [];
    match f {
      case Number(n, v) =>
        VarintInverse(v, rest);
        ReadNumber(utf8, 8 * n, EncodeVarint(v), rest, flow);
      case Text(n, b) =>
        VarintInverse(|b|, b + rest);
        ReadText(utf8, 8 * n + 2, EncodeVarint(|b|), b, rest, flow);
    }
  }

  /** The scan goes through well-formed fields one after another, and on with what follows them. */
  lemma {:induction false} ScanFields(utf8: Utf8, fs: seq<Field>, tail: seq<byte>, flow: seq<byte>)
    requires forall i :: 0 <= i < |fs| ==> fs[i].WellFormed()
    ensures Scan(utf8, EncodeFields(fs) + tail, flow) == Scan(utf8, tail, LastFlow(utf8, fs, flow))
    decreases |fs|
  {
    if fs == [] {
      assert EncodeFields(fs) + tail == tail;
    } else {
      assert fs[0].WellFormed();
      var e, rest := fs[0].Encoding(), EncodeFields(fs[1..]) + tail;
      assert EncodeFields(fs) + tail == e + rest;
      FieldInverse(utf8, fs[0], rest, flow);
      ScanStep(utf8, e + rest, flow);
      assert (e + rest)[|e|..] == rest;
      ScanFields(utf8, fs[1..], tail, LastFlow(utf8, [fs[0]], flow));
      LastFlowCons(utf8, fs[0], fs[1..], flow);
      assert [fs[0]] + fs[1..] == fs;
    }
  }

  /** Well-formed fields in any order and number yield the last valid Flow, or the empty string. */
  lemma {:induction false} ParseFindsLastFlow(utf8: Utf8, fs: seq<Field>, flow: seq<byte>)
    requires forall i :: 0 <= i < |fs| ==> fs[i].WellFormed()
    ensures Scan(utf8, EncodeFields(fs), flow) == LastFlow(utf8, fs, flow)
  {
    ScanFields(utf8, fs, [], flow);
    assert EncodeFields(fs) + [] == EncodeFields(fs);
  }

  /**
    A field that cannot be read: a tag of another wire type, a number that does not end, or text
    that is longer than what is left.
   */
  ghost predicate Unreadable(tail: seq<byte>) {
    && tail != []
    && var wire, more := tail[0] % 8, tail[1..];
       || wire !in {0, 2}
       || (forall i :: 0 <= i < |more| && i < 10 ==> more[i] >= 128)
       || (wire == 2 && exists n: nat, rest :: n < U64_END && more == EncodeVarint(n) + rest && |rest| < n)
  }

  /** What was found before an unreadable field stands, and the scan stops there. */
  lemma {:induction false} MalformedFieldStops(utf8: Utf8, fs: seq<Field>, tail: seq<byte>, flow: seq<byte>)
    requires forall i :: 0 <= i < |fs| ==> fs[i].WellFormed()
    requires Unreadable(tail)
    ensures Scan(utf8, EncodeFields(fs) + tail, flow) == LastFlow(utf8, fs, flow)
  {
    ScanFields(utf8, fs, tail, flow);
    var more, found := tail[1..], LastFlow(utf8, fs, flow);
    ScanStep(utf8, tail, found);
    UnendedVarint(more);
    if n: nat, rest :| tail[0] % 8 == 2 && n < U64_END && more == EncodeVarint(n) + rest && |rest| < n {
      VarintInverse(n, rest);
    }
    assert ReadField(utf8, tail, found) == None;
  }
}
