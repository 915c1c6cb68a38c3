/**
  The encrypting half of the record layer: per-key sequence numbers and the nonces made from
  them (IV xor sequence number, section 5.3 of RFC 8446).
 */
module Records {
  import opened Bytes

  const NONCE_LEN: nat := 12
  const SEQ_SOFT_LIMIT: nat := 0xffff_ffff_ffff_0000
  const SEQ_HARD_LIMIT: nat := 0xffff_ffff_ffff_fffe

  // -----------------------------------------------------------------------------------------
  // Nonces
  // -----------------------------------------------------------------------------------------

  function Pow2(k: nat): nat {
    if k == 0 then 1 else 2 * Pow2(k - 1)
  }

  /** Bitwise exclusive or of the low `k` bits. */
  function Xor(a: nat, b: nat, k: nat): (r: nat)
    ensures r < Pow2(k)
  {
    if k == 0 then 0 else 2 * Xor(a / 2, b / 2, k - 1) + (a + b) % 2
  }

  lemma {:induction false} XorCancel(a: nat, b: nat, k: nat)
    requires a < Pow2(k)
    ensures Xor(Xor(a, b, k), b, k) == a
  {
    if k > 0 {
      var x := Xor(a / 2, b / 2, k - 1);
      XorCancel(a / 2, b / 2, k - 1);
      Parity(a, b, x);
      calc {
        Xor(Xor(a, b, k), b, k);
        Xor(2 * x + (a + b) % 2, b, k);
        2 * Xor(x, b / 2, k - 1) + a % 2;
        2 * (a / 2) + a % 2;
        a;
      }
    }
  }

  lemma {:induction false} Parity(a: nat, b: nat, x: nat)
    ensures (2 * x + (a + b) % 2) / 2 == x && (2 * x + (a + b) % 2 + b) % 2 == a % 2
  {
  }

  /** The bit of value 2^i. */
  function Bit(a: nat, i: nat): nat {
    if i == 0 then a % 2 else Bit(a / 2, i - 1)
  }

  /** Every one of the low `k` bits of the result is set exactly when the two bits differ. */
  lemma {:induction false} XorBit(a: nat, b: nat, k: nat, i: nat)
    requires i < k
    ensures Bit(Xor(a, b, k), i) == if Bit(a, i) != Bit(b, i) then 1 else 0
  {
    var r, x := Xor(a, b, k), Xor(a / 2, b / 2, k - 1);
    assert r == 2 * x + (a + b) % 2;
    LowBit(a, b, x);
    if i > 0 {
      XorBit(a / 2, b / 2, k - 1, i - 1);
      assert Bit(r, i) == Bit(x, i - 1) && Bit(a, i) == Bit(a / 2, i - 1) && Bit(b, i) == Bit(b / 2, i - 1);
    } else {
      assert Bit(r, i) == r % 2 && Bit(a, i) == a % 2 && Bit(b, i) == b % 2;
    }
  }

  lemma {:induction false} LowBit(a: nat, b: nat, x: nat)
    ensures var r := 2 * x + (a + b) % 2; r / 2 == x && r % 2 == if a % 2 != b % 2 then 1 else 0
  {
  }

  function XorByte(a: byte, b: byte): byte {
    assert Pow2(8) == 256;
    Xor(a, b, 8)
  }

  lemma {:induction false} XorByteInjective(a: byte, c: byte, b: byte)
    requires XorByte(a, b) == XorByte(c, b)
    ensures a == c
  {
    assert Pow2(8) == 256;
    XorCancel(a, b, 8);
    XorCancel(c, b, 8);
  }

  function PutBe64(n: nat): (p: seq<byte>)
    ensures |p| == 8
  {
    PutBe32(n / 0x1_0000_0000) + PutBe32(n % 0x1_0000_0000)
  }

  lemma {:induction false} PutBe64Injective(m: nat, n: nat)
    requires m < U64_END && n < U64_END && PutBe64(m) == PutBe64(n)
    ensures m == n
  {
    var p := 0x1_0000_0000;
    Be32Inverse(m / p);
    Be32Inverse(m % p);
    Be32Inverse(n / p);
    Be32Inverse(n % p);
    assert PutBe32(m / p) == PutBe64(m)[..4] && PutBe32(m % p) == PutBe64(m)[4..];
    assert PutBe32(n / p) == PutBe64(n)[..4] && PutBe32(n % p) == PutBe64(n)[4..];
  }

  /** A sequence number as a 96-bit big-endian number. */
  function Be96(seqNo: nat): (p: seq<byte>)
    ensures |p| == NONCE_LEN
  {
    [0, 0, 0, 0] + PutBe64(seqNo)
  }

  function NonceBytes(iv: seq<byte>, seqNo: nat): (n: seq<byte>)
    requires |iv| == NONCE_LEN
    ensures |n| == NONCE_LEN
    ensures forall i :: 0 <= i < NONCE_LEN ==> n[i] == XorByte(Be96(seqNo)[i], iv[i])
  {
    seq<byte>(NONCE_LEN, i requires 0 <= i < NONCE_LEN => XorByte(Be96(seqNo)[i], iv[i]))
  }

  /** A big-endian number of any length. */
  function ValueOf(p: seq<byte>): nat {
    if p == [] then 0 else 256 * ValueOf(p[..|p| - 1]) + p[|p| - 1]
  }

  lemma {:induction false} ValueSnoc(p: seq<byte>, b: byte)
    ensures ValueOf(p + [b]) == 256 * ValueOf(p) + b
  {
    assert (p + [b])[..|p|] == p;
  }

  lemma {:induction false} ValueAppend(p: seq<byte>, q: seq<byte>)
    requires |q| == 4
    ensures ValueOf(p + q) == 0x1_0000_0000 * ValueOf(p) + Be32(q[0], q[1], q[2], q[3])
  {
    assert p + q == p + [q[0]] + [q[1]] + [q[2]] + [q[3]];
    ValueSnoc(p, q[0]);
    ValueSnoc(p + [q[0]], q[1]);
    ValueSnoc(p + [q[0]] + [q[1]], q[2]);
    ValueSnoc(p + [q[0]] + [q[1]] + [q[2]], q[3]);
  }

  /** The twelve bytes are the sequence number, as a base-256 number. */
  lemma {:induction false} Be96Value(seqNo: nat)
    requires seqNo < U64_END
    ensures ValueOf(Be96(seqNo)) == seqNo
  {
    var p := 0x1_0000_0000;
    var hi, lo := seqNo / p, seqNo % p;
    var zeros: seq<byte> := [0, 0, 0, 0];
    Be32Inverse(hi);
    Be32Inverse(lo);
    assert Be96(seqNo) == [] + zeros + PutBe32(hi) + PutBe32(lo);
    ValueAppend([], zeros);
    ValueAppend([] + zeros, PutBe32(hi));
    ValueAppend([] + zeros + PutBe32(hi), PutBe32(lo));
    assert seqNo == p * hi + lo;
  }

  /** Bit by bit, a nonce is the sequence number where the IV has a 0, and its complement elsewhere. */
  lemma {:induction false} NonceBits(iv: seq<byte>, seqNo: nat, i: nat, b: nat)
    requires |iv| == NONCE_LEN && seqNo < U64_END && i < NONCE_LEN && b < 8
    ensures ValueOf(Be96(seqNo)) == seqNo
    ensures Bit(NonceBytes(iv, seqNo)[i], b) == if Bit(Be96(seqNo)[i], b) != Bit(iv[i], b) then 1 else 0
  {
    Be96Value(seqNo);
    XorBit(Be96(seqNo)[i], iv[i], 8, b);
  }

  /** Writes the sequence number behind four zero bytes, then xors the IV into every byte. */
  method NewNonce(iv: seq<byte>, seqNo: nat) returns (nonce: array<byte>)
    requires |iv| == NONCE_LEN
    ensures nonce[..] == NonceBytes(iv, seqNo)
  {
    nonce := new byte[NONCE_LEN](_ => 0);
    var number := PutBe64(seqNo);
    forall i | 0 <= i < 8 {
      nonce[4 + i] := number[i];
    }
    assert nonce[..] == Be96(seqNo);
    var i := 0;
    while i < NONCE_LEN
      invariant 0 <= i <= NONCE_LEN == nonce.Length
      invariant forall j :: 0 <= j < i ==> nonce[j] == NonceBytes(iv, seqNo)[j]
      invariant forall j :: i <= j < NONCE_LEN ==> nonce[j] == Be96(seqNo)[j]
    {
      nonce[i] := XorByte(nonce[i], iv[i]);
      i := i + 1;
    }
  }

  lemma {:induction false} NonceInjective(iv: seq<byte>, m: nat, n: nat)
    requires |iv| == NONCE_LEN && m < U64_END && n < U64_END
    requires NonceBytes(iv, m) == NonceBytes(iv, n)
    ensures m == n
  {
    forall i | 0 <= i < NONCE_LEN ensures Be96(m)[i] == Be96(n)[i] {
      assert NonceBytes(iv, m)[i] == NonceBytes(iv, n)[i];
      XorByteInjective(Be96(m)[i], Be96(n)[i], iv[i]);
    }
    assert Be96(m)[4..] == PutBe64(m) && Be96(n)[4..] == PutBe64(n);
    assert Be96(m) == Be96(n);
    PutBe64Injective(m, n);
  }

  // -----------------------------------------------------------------------------------------
  // The record layer
  // -----------------------------------------------------------------------------------------

  datatype DirectionState = Invalid | Prepared | Active

  datatype Encrypter = Encrypter(key: nat, iv: seq<byte>)

  /** One encryption: which installed encrypter, and with which sequence number. */
  datatype Mark = Mark(epoch: nat, seqNo: nat) {
    predicate Before(m: Mark) {
      epoch < m.epoch || (epoch == m.epoch && seqNo < m.seqNo)
    }
  }

  /** The encrypters installed so far (the last is in use) and the encryptions made. */
  datatype Layer = Layer(installed: seq<Encrypter>, writeSeq: nat, state: DirectionState, marks: seq<Mark>) {
    predicate Exhausted() {
      writeSeq >= SEQ_HARD_LIMIT
    }

    /** The mark of the next encryption. */
    function Next(): Mark
      requires installed != []
    {
      Mark(|installed| - 1, writeSeq)
    }
  }

  datatype LayerOp = Prepare(e: Encrypter) | Start | Set(f: Encrypter) | Encrypt

  const FreshLayer := Layer([], 0, Invalid, [])

  function WithEncrypter(l: Layer, e: Encrypter): Layer {
    l.(installed := l.installed + [e], writeSeq := 0, state := Prepared)
  }

  function Encrypted(l: Layer): Layer
    requires l.installed != []
  {
    l.(writeSeq := l.writeSeq + 1, marks := l.marks + [l.Next()])
  }

  /** One call; `None` where the code stops on a failed assertion. */
  function StepLayer(l: Layer, op: LayerOp): Option<Layer> {
    match op
    case Prepare(e) => Some(WithEncrypter(l, e))
    case Start => if l.state.Prepared? then Some(l.(state := Active)) else None
    case Set(e) => Some(WithEncrypter(l, e).(state := Active))
    case Encrypt => if l.state.Active? && !l.Exhausted() && l.installed != [] then Some(Encrypted(l)) else None
  }

  function RunLayer(l: Layer, ops: seq<LayerOp>): Option<Layer>
    decreases |ops|
  {
    if ops == [] then Some(l)
    else match StepLayer(l, ops[0])
         case None => None
         case Some(l') => RunLayer(l', ops[1..])
  }

  class RecordLayer {
    var encrypter: Option<Encrypter>
    var writeSeq: nat
    var encryptState: DirectionState
    ghost var installed: seq<Encrypter>
    ghost var marks: seq<Mark>

    ghost predicate Valid()
      reads this
    {
      && encrypter == (if installed == [] then None else Some(installed[|installed| - 1]))
      && (!encryptState.Invalid? ==> installed != [])
    }

    ghost function State(): Layer
      reads this
    {
      Layer(installed, writeSeq, encryptState, marks)
    }

    constructor ()
      ensures Valid() && State() == FreshLayer
    {
      encrypter, writeSeq, encryptState := None, 0, Invalid;
      installed, marks := [], [];
    }

    method PrepareMessageEncrypter(e: Encrypter)
      requires Valid()
      modifies this
      ensures Valid() && Some(State()) == StepLayer(old(State()), Prepare(e))
    {
      encrypter := Some(e);
      writeSeq := 0;
      encryptState := Prepared;
      installed := installed + [e];
    }

    method StartEncrypting()
      requires Valid() && encryptState.Prepared?
      modifies this
      ensures Valid() && Some(State()) == StepLayer(old(State()), Start)
    {
      encryptState := Active;
    }

    method SetMessageEncrypter(e: Encrypter)
      requires Valid()
      modifies this
      ensures Valid() && Some(State()) == StepLayer(old(State()), Set(e))
    {
      PrepareMessageEncrypter(e);
      StartEncrypting();
    }

    /** The key and sequence number a message is sealed with. */
    method EncryptOutgoing() returns (e: Encrypter, seqNo: nat)
      requires Valid() && encryptState.Active? && !State().Exhausted()
      modifies this
      ensures Valid() && State() == Encrypted(old(State()))
      ensures e == installed[State().marks[|State().marks| - 1].epoch] && seqNo == old(writeSeq)
    {
      e, seqNo := encrypter.value, writeSeq;
      marks := marks + [State().Next()];
      writeSeq := writeSeq + 1;
    }
  }

  // -----------------------------------------------------------------------------------------
  // Nonces are never reused
  // -----------------------------------------------------------------------------------------

  ghost predicate Increasing(marks: seq<Mark>) {
    forall i, j :: 0 <= i < j < |marks| ==> marks[i].Before(marks[j])
  }

  ghost predicate LayerInv(l: Layer) {
    && Increasing(l.marks)
    && (!l.state.Invalid? ==> l.installed != [])
    && l.writeSeq <= SEQ_HARD_LIMIT
    && (l.installed == [] ==> l.marks == [])
    && (l.installed != [] ==> forall i :: 0 <= i < |l.marks| ==> l.marks[i].Before(l.Next()))
    && (forall i :: 0 <= i < |l.marks| ==> l.marks[i].epoch < |l.installed| && l.marks[i].seqNo < SEQ_HARD_LIMIT)
  }

  lemma {:induction false} RunKeepsLayerInv(l: Layer, ops: seq<LayerOp>)
    requires LayerInv(l) && RunLayer(l, ops).Some?
    ensures LayerInv(RunLayer(l, ops).value)
    decreases |ops|
  {
    if ops != [] {
      var l' := StepLayer(l, ops[0]).value;
      assert LayerInv(l');
      RunKeepsLayerInv(l', ops[1..]);
    }
  }

  ghost predicate FreshKeys(installed: seq<Encrypter>) {
    && (forall i :: 0 <= i < |installed| ==> |installed[i].iv| == NONCE_LEN)
    && (forall i, j :: 0 <= i < j < |installed| ==> installed[i].key != installed[j].key)
  }

  function KeyOf(l: Layer, i: nat): nat
    requires i < |l.marks| && l.marks[i].epoch < |l.installed|
  {
    l.installed[l.marks[i].epoch].key
  }

  function NonceOf(l: Layer, i: nat): seq<byte>
    requires i < |l.marks| && l.marks[i].epoch < |l.installed|
    requires |l.installed[l.marks[i].epoch].iv| == NONCE_LEN
  {
    NonceBytes(l.installed[l.marks[i].epoch].iv, l.marks[i].seqNo)
  }

  /** In every run that installs a fresh key each time, no key is used twice with one nonce. */
  lemma {:induction false} NoncesAreUnique(ops: seq<LayerOp>, i: nat, j: nat)
    requires RunLayer(FreshLayer, ops).Some?
    requires FreshKeys(RunLayer(FreshLayer, ops).value.installed)
    requires i < j < |RunLayer(FreshLayer, ops).value.marks|
    ensures var l := RunLayer(FreshLayer, ops).value;
            && l.writeSeq <= SEQ_HARD_LIMIT < U64_END
            && l.marks[i].epoch < |l.installed| && l.marks[j].epoch < |l.installed|
            && !(KeyOf(l, i) == KeyOf(l, j) && NonceOf(l, i) == NonceOf(l, j))
  {
    RunKeepsLayerInv(FreshLayer, ops);
    LayerNoncesAreUnique(RunLayer(FreshLayer, ops).value, i, j);
  }

  lemma {:induction false} LayerNoncesAreUnique(l: Layer, i: nat, j: nat)
    requires LayerInv(l) && FreshKeys(l.installed) && i < j < |l.marks|
    ensures !(KeyOf(l, i) == KeyOf(l, j) && NonceOf(l, i) == NonceOf(l, j))
  {
    var a, b := l.marks[i], l.marks[j];
    assert a.Before(b);
    if a.epoch == b.epoch && NonceOf(l, i) == NonceOf(l, j) {
      NonceInjective(l.installed[a.epoch].iv, a.seqNo, b.seqNo);
    }
  }
}
