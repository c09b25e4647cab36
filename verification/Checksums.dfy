/** The checksum of keys and chunks: FNV-1a run on 64 bits and cut down to 32. */
module Checksums {
  import opened Bytes

  const FNV_OFFSET_BASIS := 0xcbf29ce484222325
  const FNV_PRIME := 0x100000001b3
  const LONG_LIMIT := 0x1_0000_0000_0000_0000

  /** Bitwise exclusive or. */
  function Xor(a: nat, b: nat): nat
    decreases a + b
  {
    if a == 0 && b == 0 then 0 else (a % 2 + b % 2) % 2 + 2 * Xor(a / 2, b / 2)
  }

  /** The state of the checksum loop after the bytes of data, on 64 bits. */
  function Fnv64(data: seq<Byte>): nat {
    if data == [] then FNV_OFFSET_BASIS
    else Xor(Fnv64(data[..|data| - 1]), data[|data| - 1]) * FNV_PRIME % LONG_LIMIT
  }

  function Fnv(data: seq<Byte>): Word {
    Fnv64(data) % WORD_LIMIT
  }

  method Create(data: seq<Byte>) returns (checksum: Word)
    ensures checksum == Fnv(data)
  {
    var workingmem: nat := FNV_OFFSET_BASIS;
    for i := 0 to |data|
      invariant workingmem == Fnv64(data[..i])
    {
      assert data[..i + 1][..i] == data[..i];
      workingmem := Xor(workingmem, data[i]);
      workingmem := workingmem * FNV_PRIME % LONG_LIMIT;
    }
    assert data[..|data|] == data;
    checksum := workingmem % WORD_LIMIT;
  }

  method Verify(data: seq<Byte>, checksum: Word) returns (ok: bool)
    ensures ok <==> checksum == Fnv(data)
  {
    var control := Create(data);
    ok := checksum == control;
  }

  // ------------------------------------------------------------ the loop on 32 bits

  const BASIS32 := 0x84222325
  const PRIME32 := 0x1b3

  function Step32(s: nat, b: Byte): Word {
    Xor(s, b) * PRIME32 % WORD_LIMIT
  }

  /** The same recurrence carried out on 32 bits throughout, from state s. */
  function Run32(s: Word, data: seq<Byte>): Word {
    if data == [] then s else Step32(Run32(s, data[..|data| - 1]), data[|data| - 1])
  }

  lemma HalfMod(a: nat, m: nat)
    requires m > 0
    ensures a % (2 * m) == a % 2 + 2 * (a / 2 % m)
  {
    var q := a / 2 / m;
    assert a / 2 == q * m + a / 2 % m;
    assert a == q * (2 * m) + (a % 2 + 2 * (a / 2 % m));
    ModUnique(a, 2 * m, q, a % 2 + 2 * (a / 2 % m));
  }

  lemma MultipleBelow(d: int, m: nat, x: int)
    requires d * m == x && 0 - m < x < m
    ensures x == 0
  {
  }

  lemma ModUnique(a: nat, m: nat, q: nat, r: nat)
    requires m > 0 && r < m && a == q * m + r
    ensures a % m == r
  {
    MultipleBelow(a / m - q, m, r - a % m);
  }

  /** The low bits of an exclusive or depend on the low bits of its operands. */
  lemma {:induction false} XorMod(a: nat, b: nat, k: nat)
    ensures Pow2(k) > 0
    ensures Xor(a, b) % Pow2(k) == Xor(a % Pow2(k), b % Pow2(k))
    decreases k
  {
    if k > 0 {
      var m := Pow2(k - 1);
      assert Pow2(k) == 2 * m;
      hide Xor, Pow2;
      XorMod(a / 2, b / 2, k - 1);
      HalfMod(a, m);
      HalfMod(b, m);
      HalfMod(Xor(a, b), m);
      XorHalves(a, b);
      XorJoin(a % 2, a / 2 % m, b % 2, b / 2 % m);
    }
  }

  lemma XorJoin(p: nat, x: nat, q: nat, y: nat)
    requires p < 2 && q < 2
    ensures Xor(p + 2 * x, q + 2 * y) == (p + q) % 2 + 2 * Xor(x, y)
  {
  }

  lemma {:induction false} Pow2Plus(a: nat, b: nat)
    ensures Pow2(a + b) == Pow2(a) * Pow2(b)
  {
    if a > 0 {
      Pow2Plus(a - 1, b);
      var x, y := Pow2(a - 1), Pow2(b);
      assert 2 * (x * y) == (2 * x) * y;
    }
  }

  lemma Pow2Of32()
    ensures Pow2(32) == WORD_LIMIT
  {
    assert Pow2(4) == 16;
    Pow2Plus(4, 4);
    Pow2Plus(8, 8);
    Pow2Plus(16, 16);
  }

  lemma XorHalves(a: nat, b: nat)
    ensures Xor(a, b) % 2 == (a % 2 + b % 2) % 2 && Xor(a, b) / 2 == Xor(a / 2, b / 2)
  {
  }

  lemma Parity(a: nat, b: nat)
    ensures ((a % 2 + b % 2) % 2 + b % 2) % 2 == a % 2
  {
  }

  lemma {:induction false} XorBack(a: nat, b: nat)
    ensures Xor(Xor(a, b), b) == a
    decreases a + b
  {
    if a != 0 || b != 0 {
      XorBack(a / 2, b / 2);
      XorHalves(a, b);
      XorHalves(Xor(a, b), b);
      Parity(a, b);
    }
  }

  lemma {:induction false} XorCommutes(a: nat, b: nat)
    ensures Xor(a, b) == Xor(b, a)
    decreases a + b
  {
    if a != 0 || b != 0 {
      XorCommutes(a / 2, b / 2);
    }
  }

  /** Multiplying by the 64-bit prime is, on the low 32 bits, multiplying by its low 32 bits. */
  lemma PrimeCut(x: nat)
    ensures x * FNV_PRIME % LONG_LIMIT % WORD_LIMIT == x % WORD_LIMIT * PRIME32 % WORD_LIMIT
  {
    var p := x * FNV_PRIME;
    var r := x % WORD_LIMIT * PRIME32 % WORD_LIMIT;
    var q := x % WORD_LIMIT * PRIME32 / WORD_LIMIT;
    assert p % LONG_LIMIT == p - p / LONG_LIMIT * LONG_LIMIT;
    var z := x / WORD_LIMIT * PRIME32 + x * 256 + q - p / LONG_LIMIT * WORD_LIMIT;
    assert p % LONG_LIMIT == z * WORD_LIMIT + r;
    assert z >= 0;
    ModUnique(p % LONG_LIMIT, WORD_LIMIT, z, r);
  }

  lemma StepCut(h: nat, b: Byte)
    ensures Xor(h, b) * FNV_PRIME % LONG_LIMIT % WORD_LIMIT == Step32(h % WORD_LIMIT, b)
  {
    hide Xor, Pow2;
    Pow2Of32();
    XorMod(h, b, 32);
    PrimeCut(Xor(h, b));
    assert b % WORD_LIMIT == b;
  }

  /** Cutting the 64-bit state down loses nothing the 32-bit recurrence would keep. */
  lemma {:induction false} FnvIs32(data: seq<Byte>)
    ensures Fnv(data) == Run32(BASIS32, data)
  {
    if data != [] {
      var h, b := Fnv64(data[..|data| - 1]), data[|data| - 1];
      FnvIs32(data[..|data| - 1]);
      StepCut(h, b);
    }
  }

  /** A step forgets nothing: the multiplier is odd, so it has an inverse modulo 2^32. */
  lemma StepInjective(s: Word, t: Word, b: Byte, c: Byte)
    requires Step32(s, b) == Step32(t, c)
    ensures Xor(s, b) == Xor(t, c)
  {
    assert Xor(s, b) < WORD_LIMIT && Xor(t, c) < WORD_LIMIT by {
      Pow2Of32();
      XorBound(s, b, 32);
      XorBound(t, c, 32);
    }
    OddInvertible(Xor(s, b), Xor(t, c));
  }

  lemma {:induction false} XorBound(a: nat, b: nat, k: nat)
    requires a < Pow2(k) && b < Pow2(k)
    ensures Xor(a, b) < Pow2(k)
    decreases k
  {
    if k > 0 {
      XorBound(a / 2, b / 2, k - 1);
    }
  }

  lemma OddInvertible(x: nat, y: nat)
    requires x < WORD_LIMIT && y < WORD_LIMIT
    requires x * PRIME32 % WORD_LIMIT == y * PRIME32 % WORD_LIMIT
    ensures x == y
  {
    var j := x * PRIME32 / WORD_LIMIT - y * PRIME32 / WORD_LIMIT;
    assert (x - y) * PRIME32 == j * WORD_LIMIT;
    InverseUndoes(x - y, j);
  }

  lemma InverseUndoes(x: int, j: int)
    requires x * PRIME32 == j * WORD_LIMIT && -WORD_LIMIT < x < WORD_LIMIT
    ensures x == 0
  {
    assert PRIME32 * 2952172923 == 1 + 299 * WORD_LIMIT;
    var d := j * 2952172923 - x * 299;
    assert x == d * WORD_LIMIT;
  }

  lemma {:induction false} RunInjective(s: Word, t: Word, data: seq<Byte>)
    requires Run32(s, data) == Run32(t, data)
    ensures s == t
  {
    if data != [] {
      var b := data[|data| - 1];
      var s', t' := Run32(s, data[..|data| - 1]), Run32(t, data[..|data| - 1]);
      StepInjective(s', t', b, b);
      XorBack(s', b);
      XorBack(t', b);
      RunInjective(s, t, data[..|data| - 1]);
    }
  }

  lemma {:induction false} RunSplit(s: Word, x: seq<Byte>, y: seq<Byte>)
    ensures Run32(s, x + y) == Run32(Run32(s, x), y)
  {
    if y == [] {
      assert x + y == x;
    } else {
      assert (x + y)[..|x + y| - 1] == x + y[..|y| - 1];
      RunSplit(s, x, y[..|y| - 1]);
    }
  }

  /** Data with one byte changed never has the checksum of the original. */
  lemma OneByteChangeCaught(data: seq<Byte>, i: nat, b: Byte)
    requires i < |data| && b != data[i]
    ensures Fnv(data[i := b]) != Fnv(data)
  {
    var data' := data[i := b];
    var front, tail := data[..i], data[i + 1..];
    FnvIs32(data);
    FnvIs32(data');
    var s := Run32(BASIS32, front);
    RunAround(BASIS32, data, i);
    RunAround(BASIS32, data', i);
    assert data'[..i] == front && data'[i + 1..] == tail;
    if Fnv(data') == Fnv(data) {
      RunInjective(Step32(s, b), Step32(s, data[i]), tail);
      StepInjective(s, s, b, data[i]);
      XorCommutes(s, b);
      XorCommutes(s, data[i]);
      XorBack(b, s);
      XorBack(data[i], s);
    }
  }

  lemma RunAround(s: Word, data: seq<Byte>, i: nat)
    requires i < |data|
    ensures Run32(s, data) == Run32(Step32(Run32(s, data[..i]), data[i]), data[i + 1..])
  {
    var front, tail := data[..i], data[i + 1..];
    assert data == (front + [data[i]]) + tail;
    RunSplit(s, front + [data[i]], tail);
    assert (front + [data[i]])[..i] == front;
  }
}
