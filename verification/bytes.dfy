/** Bytes, big-endian numbers and concatenation, shared by every component. */
module Bytes {

  type byte = b: int | 0 <= b < 256

  /** Whether bytes are valid UTF-8, decided by the standard library. */
  type Utf8 = seq<byte> -> bool

  const U64_END: nat := 0x1_0000_0000_0000_0000

  datatype Option<+T> = None | Some(value: T)

  function Min(a: int, b: int): int {
    if a <= b then a else b
  }

  /** The concatenation of a list of chunks. */
  function Flatten<T>(parts: seq<seq<T>>): seq<T> {
    if parts == [] then [] else parts[0] + Flatten(parts[1..])
  }

  lemma {:induction false} Assoc<T>(x: seq<T>, y: seq<T>, z: seq<T>)
    ensures x + (y + z) == x + y + z
  {
  }

  /** Slicing what is left of `s` behind position `a`. */
  lemma {:induction false} DropSlice<T>(s: seq<T>, a: nat, i: nat, j: nat)
    requires i <= j && a + j <= |s|
    ensures s[a..][i..j] == s[a + i..a + j] && s[a..][j..] == s[a + j..]
  {
    var rest := s[a..];
    forall k | 0 <= k < j - i ensures rest[i..j][k] == s[a + i..a + j][k] {
      assert rest[i..j][k] == rest[i + k];
    }
    forall k | 0 <= k < |s| - a - j ensures rest[j..][k] == s[a + j..][k] {
      assert rest[j..][k] == rest[j + k];
    }
  }

  lemma {:induction false} FlattenConcat<T>(a: seq<seq<T>>, b: seq<seq<T>>)
    ensures Flatten(a + b) == Flatten(a) + Flatten(b)
  {
    if a == [] {
      assert a + b == b;
      assert Flatten(a) == [];
    } else {
      var c := a + b;
      assert c[0] == a[0] && c[1..] == a[1..] + b;
      FlattenConcat(a[1..], b);
      Assoc(a[0], Flatten(a[1..]), Flatten(b));
    }
  }

  lemma {:induction false} FlattenSnoc<T>(a: seq<seq<T>>, x: seq<T>)
    ensures Flatten(a + [x]) == Flatten(a) + x
  {
    FlattenConcat(a, [x]);
    assert [x][1..] == [];
    assert Flatten([x]) == x;
  }

  /** `n` in two big-endian bytes; higher bits are cut off, as an `as u16` cast does. */
  function PutBe16(n: nat): seq<byte> {
    [(n / 256) % 256, n % 256]
  }

  function Be16(hi: byte, lo: byte): nat {
    256 * hi + lo
  }

  function PutBe32(n: nat): seq<byte> {
    PutBe16(n / 65536) + PutBe16(n % 65536)
  }

  function Be32(a: byte, b: byte, c: byte, d: byte): nat {
    65536 * Be16(a, b) + Be16(c, d)
  }

  lemma {:induction false} Digits(n: nat)
    ensures 256 * ((n / 256) % 256) + n % 256 == n % 65536 && n / 65536 == n / 256 / 256
  {
    var q, low := n / 256, n % 256;
    var high, mid := q / 256, q % 256;
    assert n == 256 * q + low;
    assert q == 256 * high + mid;
    Uniquely(n, high, 256 * mid + low);
  }

  lemma {:induction false} Uniquely(n: nat, q: nat, r: nat)
    requires n == 65536 * q + r && r < 65536
    ensures n / 65536 == q && n % 65536 == r
  {
  }

  lemma {:induction false} SameDigits(n: nat)
    ensures PutBe16(n) == PutBe16(n % 65536)
  {
    var q, low := n / 256, n % 256;
    var mid := q % 256;
    Digits(n);
    Bytewise(n % 65536, mid, low);
  }

  lemma {:induction false} Bytewise(n: nat, high: nat, low: nat)
    requires n == 256 * high + low && high < 256 && low < 256
    ensures PutBe16(n) == [high, low]
  {
    assert n / 256 == high && n % 256 == low;
  }

  lemma {:induction false} Be16Inverse(n: nat)
    ensures var p := PutBe16(n); Be16(p[0], p[1]) == n % 65536
  {
    Digits(n);
  }

  lemma {:induction false} Be16Exact(n: nat)
    requires n < 65536
    ensures var p := PutBe16(n); Be16(p[0], p[1]) == n
  {
    Be16Inverse(n);
    Uniquely(n, 0, n);
  }

  lemma {:induction false} Be32Inverse(n: nat)
    requires n < 0x1_0000_0000
    ensures var p := PutBe32(n); |p| == 4 && Be32(p[0], p[1], p[2], p[3]) == n
  {
    Be16Exact(n / 65536);
    Be16Exact(n % 65536);
  }
}
