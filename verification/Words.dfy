/**
 Fixed-width words, bytes and bit words as the source's C++ types have them.
 A `uint32_t` is a mathematical integer in its range; every operation of the
 source that may wrap is written out with `Add32` / `Sub32`.
 */
module Words {

  const U32: int := 0x1_0000_0000
  const U64: int := 0x1_0000_0000_0000_0000

  type uint8 = x: int | 0 <= x < 0x100
  type uint16 = x: int | 0 <= x < 0x1_0000
  type uint32 = x: int | 0 <= x < 0x1_0000_0000
  type uint64 = x: int | 0 <= x < 0x1_0000_0000_0000_0000
  type Bytes = seq<uint8>

  datatype Option<+T> = None | Some(value: T)

  /** `a + b` in uint32_t. */
  function Add32(a: int, b: int): uint32 {
    (a + b) % U32
  }

  /** `a - b` in uint32_t. */
  function Sub32(a: int, b: int): uint32 {
    (a - b) % U32
  }

  lemma Add32Again(a: uint32, i: nat, j: nat)
    ensures Add32(a, 0) == a && Add32(Add32(a, i), j) == Add32(a, i + j)
  {
  }

  function Min(a: int, b: int): int {
    if a < b then a else b
  }

  function Max(a: int, b: int): int {
    if a < b then b else a
  }

  /** std::clamp; defined only for lo <= hi, as in C++. */
  function Clamp(v: int, lo: int, hi: int): int
    requires lo <= hi
  {
    if v < lo then lo else if hi < v then hi else v
  }

  function Pow2(n: nat): (p: nat)
    ensures 1 <= p
  {
    if n == 0 then 1 else 2 * Pow2(n - 1)
  }

  // ---------------------------------------------------------------- bytes

  function LeOf16(v: uint16): Bytes {
    [v % 0x100, v / 0x100]
  }

  function Of16Le(b: Bytes): uint16
    requires |b| >= 2
  {
    (b[0] as int) + 0x100 * (b[1] as int)
  }

  function LeOf32(v: uint32): Bytes {
    [v % 0x100, v / 0x100 % 0x100, v / 0x1_0000 % 0x100, v / 0x100_0000]
  }

  function Of32Le(b: Bytes): uint32
    requires |b| >= 4
  {
    (b[0] as int) + 0x100 * (b[1] as int) + 0x1_0000 * (b[2] as int) + 0x100_0000 * (b[3] as int)
  }

  function LeOf64(v: uint64): Bytes {
    LeOf32(v % U32) + LeOf32(v / U32)
  }

  function Of64Le(b: Bytes): uint64
    requires |b| >= 8
  {
    Of32Le(b[..4]) + U32 * Of32Le(b[4..])
  }

  lemma RoundTrip16(v: uint16, rest: Bytes)
    ensures Of16Le(LeOf16(v) + rest) == v
  {
  }

  /** A word is the sum of its bytes at their places. */
  lemma BytesOfWord(v: uint32)
    ensures v == v % 0x100 + 0x100 * (v / 0x100 % 0x100) + 0x1_0000 * (v / 0x1_0000 % 0x100) + 0x100_0000 * (v / 0x100_0000)
  {
    var q1, q2, q3 := v / 0x100, v / 0x1_0000, v / 0x100_0000;
    assert q2 == q1 / 0x100;
    assert q3 == q2 / 0x100;
    assert v == v % 0x100 + 0x100 * q1;
    assert q1 == q1 % 0x100 + 0x100 * q2;
    assert q2 == q2 % 0x100 + 0x100 * q3;
  }

  lemma RoundTrip32(v: uint32, rest: Bytes)
    ensures Of32Le(LeOf32(v) + rest) == v
  {
    BytesOfWord(v);
    var low, second, third, high: uint8 := v % 0x100, v / 0x100 % 0x100, v / 0x1_0000 % 0x100, v / 0x100_0000;
    assert LeOf32(v) == [low, second, third, high];
    var b := LeOf32(v) + rest;
    assert b[0] == low && b[1] == second && b[2] == third && b[3] == high;
  }

  lemma RoundTrip64(v: uint64, rest: Bytes)
    ensures Of64Le(LeOf64(v) + rest) == v
  {
    var b := LeOf64(v) + rest;
    assert b[..4] == LeOf32(v % U32) + [];
    assert b[4..] == LeOf32(v / U32) + rest;
    RoundTrip32(v % U32, []);
    RoundTrip32(v / U32, rest);
  }

  // ---------------------------------------------------------------- bits

  /** `(w >> i) & 1`. */
  function Bit(w: nat, i: nat): bool {
    if i == 0 then w % 2 == 1 else Bit(w / 2, i - 1)
  }

  /** `w | (1 << i)`. */
  function SetBit(w: nat, i: nat): nat {
    if i == 0 then w - w % 2 + 1 else 2 * SetBit(w / 2, i - 1) + w % 2
  }

  lemma {:induction false} BitOfSetBit(w: nat, i: nat, j: nat)
    ensures Bit(SetBit(w, i), j) <==> j == i || Bit(w, j)
  {
    if i == 0 {
      assert SetBit(w, 0) / 2 == w / 2;
    } else if j > 0 {
      BitOfSetBit(w / 2, i - 1, j - 1);
    }
  }

  lemma {:induction false} SetBitInWord(w: nat, i: nat, n: nat)
    requires i < n && w < Pow2(n)
    ensures SetBit(w, i) < Pow2(n)
  {
    var half, low, top := w / 2, w % 2, Pow2(n - 1);
    assert w == 2 * half + low && Pow2(n) == 2 * top && half < top;
    if i > 0 {
      SetBitInWord(half, i - 1, n - 1);
      var h := SetBit(half, i - 1);
      assert SetBit(w, i) == 2 * h + low && h < top;
    } else {
      assert SetBit(w, i) == 2 * half + 1;
    }
  }

  lemma {:induction false} NoBitsInZero(i: nat)
    ensures !Bit(0, i)
  {
    if i > 0 { NoBitsInZero(i - 1); }
  }

  lemma {:induction false} Pow2Sum(a: nat, b: nat)
    ensures Pow2(a + b) == Pow2(a) * Pow2(b)
  {
    if a > 0 {
      Pow2Sum(a - 1, b);
      Doubled(Pow2(a - 1), Pow2(b));
    }
  }

  lemma Doubled(x: nat, y: nat)
    ensures (2 * x) * y == 2 * (x * y)
  {
  }

  lemma Pow2Of8()
    ensures Pow2(8) == 0x100
  {
  }

  lemma Pow2Of64()
    ensures Pow2(64) == U64
  {
    hide Pow2;
    Pow2Of8();
    Pow2Sum(8, 8);
    Pow2Sum(16, 16);
    Pow2Sum(32, 32);
  }

  // ---------------------------------------------------------------- least keys

  predicate IsLeast(m: int, s: set<int>) {
    m in s && forall x :: x in s ==> m <= x
  }

  lemma {:induction false} LeastExists(s: set<int>)
    requires s != {}
    ensures exists m :: IsLeast(m, s)
  {
    assert !(forall k :: k !in s) by { assert (forall k :: k !in s) ==> s == {}; }
    var k :| k in s;
    var rest := s - {k};
    if rest == {} {
      assert s == {k};
      assert IsLeast(k, s);
    } else {
      LeastExists(rest);
      var m :| IsLeast(m, rest);
      var least := if k <= m then k else m;
      forall x | x in s
        ensures least <= x
      {
        assert x == k || x in rest;
      }
      assert IsLeast(least, s);
    }
  }

  /** The key an ordered map's `begin()` names. */
  function Least(s: set<int>): (m: int)
    requires s != {}
    ensures IsLeast(m, s)
  {
    LeastExists(s);
    var m :| IsLeast(m, s);
    m
  }
}
